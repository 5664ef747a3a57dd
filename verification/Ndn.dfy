/**
 Writing NDN packets: the bytes of a packet, and the code that fills a buffer with them from the back.
 */
module Ndn {
  import opened Base
  import opened Tlv

  const INTEREST: nat := 0x05
  const DATA: nat := 0x06
  const NAME: nat := 0x07
  const NAME_COMPONENT: nat := 0x08
  const SELECTORS: nat := 0x09
  const NONCE: nat := 0x0a
  const SCOPE: nat := 0x0b
  const INTEREST_LIFETIME: nat := 0x0c
  const MIN_SUFFIX: nat := 0x0d
  const MAX_SUFFIX: nat := 0x0e
  const MUST_BE_FRESH: nat := 0x12
  const META_INFO: nat := 0x14
  const CONTENT: nat := 0x15
  const SIGNATURE_INFO: nat := 0x16
  const SIGNATURE_VALUE: nat := 0x17
  const FRESHNESS_PERIOD: nat := 0x19
  const FINAL_BLOCK_ID: nat := 0x1a
  const SIGNATURE_TYPE: nat := 0x1b
  const NDNLP_FRAGMENT: nat := 0x52
  const NDNLP: nat := 0x64
  const MARKER_SEGMENT: Byte := 0
  const UINT32_MAX: nat := 0xffffffff

  /** A name; its chunk number travels as one more component. */
  datatype NdnName = NdnName(comps: seq<Bytes>, chunk: Option<U32>)

  datatype InterestOpts = InterestOpts(nonce: Bytes, mustBeFresh: bool, lifetime: U32)

  datatype DataOpts = DataOpts(freshness: U32, finalBlockId: U32)

  // ---------------------------------------------------------------- the bytes

  function TypeLength(typ: nat, len: nat): Bytes {
    VarInt(typ) + VarInt(len)
  }

  function Block(typ: nat, v: Bytes): Bytes {
    TypeLength(typ, |v|) + v
  }

  /** Bytes that hold a non-zero number; none for zero. */
  function Digits(v: U64): (n: nat)
    ensures n <= 8
  {
    PowerEight();
    if v == 0 then 0 else
      WidthFits(v, 8);
      Width(v)
  }

  /** Bytes used: padding goes by a table that is looked up anew after every padding byte, so that 5 and 6
      bytes become 7, not 8. */
  function Padded(n: nat): nat
    requires n <= 8
  {
    if n == 0 then 1 else if n == 3 then 4 else if n == 5 || n == 6 then 7 else if n == 7 then 8 else n
  }

  function NonNeg(v: U64): Bytes {
    BigEndian(v, Padded(Digits(v)))
  }

  function Marked(v: U64): Bytes {
    [MARKER_SEGMENT] + NonNeg(v)
  }

  function Components(cs: seq<Bytes>): Bytes {
    if cs == [] then [] else Block(NAME_COMPONENT, cs[0]) + Components(cs[1..])
  }

  /** The components as they travel. */
  function Travelling(name: NdnName): seq<Bytes> {
    name.comps + if name.chunk.Some? then [Marked(name.chunk.value)] else []
  }

  function NameBytes(name: NdnName): Bytes {
    Block(NAME, Components(Travelling(name)))
  }

  function ScopeField(scope: int): Bytes
    requires scope <= 2
  {
    if scope >= 0 then Block(SCOPE, NonNeg(scope)) else []
  }

  function LifetimeField(lifetime: U32): Bytes {
    if lifetime != 0 then Block(INTEREST_LIFETIME, NonNeg(lifetime)) else []
  }

  function SelectorsField(mustBeFresh: bool): Bytes {
    if mustBeFresh then Block(SELECTORS, Block(MUST_BE_FRESH, [])) else []
  }

  function InterestValue(name: NdnName, scope: int, opts: InterestOpts): Bytes
    requires scope <= 2
  {
    NameBytes(name) + (SelectorsField(opts.mustBeFresh) + (Block(NONCE, opts.nonce)
    + (LifetimeField(opts.lifetime) + ScopeField(scope))))
  }

  function InterestBytes(name: NdnName, scope: int, opts: InterestOpts): Bytes
    requires scope <= 2
  {
    Block(INTEREST, InterestValue(name, scope, opts))
  }

  function FreshnessField(freshness: U32): Bytes {
    if freshness != 0 then Block(FRESHNESS_PERIOD, NonNeg(freshness)) else []
  }

  function FinalBlockField(id: U32): Bytes {
    if id != UINT32_MAX then Block(FINAL_BLOCK_ID, Block(NAME_COMPONENT, Marked(id))) else []
  }

  function MetaInfo(opts: Option<DataOpts>): Bytes {
    if opts.None? then [] else FreshnessField(opts.value.freshness) + FinalBlockField(opts.value.finalBlockId)
  }

  function Signature(): Bytes {
    Block(SIGNATURE_INFO, Block(SIGNATURE_TYPE, [0])) + Block(SIGNATURE_VALUE, [])
  }

  function DataValue(name: NdnName, payload: Bytes, opts: Option<DataOpts>): Bytes {
    NameBytes(name) + (Block(META_INFO, MetaInfo(opts)) + (Block(CONTENT, payload) + Signature()))
  }

  function DataBytes(name: NdnName, payload: Bytes, opts: Option<DataOpts>): Bytes {
    Block(DATA, DataValue(name, payload, opts))
  }

  // ---------------------------------------------------------------- writing backwards

  /** Whether `w` was put right before `offset`, which fails only for lack of room; nothing from `offset` on
      is touched either way. */
  ghost predicate Prepended(before: Bytes, after: Bytes, offset: nat, ok: bool, o: nat, w: Bytes) {
    && |before| == |after| && offset <= |before|
    && after[offset..] == before[offset..]
    && (ok <==> |w| <= offset)
    && (ok ==> o == offset - |w| && Wrote(before, after, o, w))
  }

  lemma WroteBefore(a: Bytes, b: Bytes, c: Bytes, o: nat, w2: Bytes, w1: Bytes)
    requires o + |w2| + |w1| <= |a| && Wrote(a, b, o + |w2|, w1) && Wrote(b, c, o, w2)
    ensures Wrote(a, c, o, w2 + w1)
  {
    var o1 := o + |w2|;
    assert b[..o] == a[..o];
    assert b[o1..] == w1 + a[o1 + |w1|..];
    AppendAssoc(a[..o] + w2, w1, a[o1 + |w1|..]);
    AppendAssoc(a[..o], w2, w1);
  }

  lemma TailKept(a: Bytes, b: Bytes, c: Bytes, lo: nat, hi: nat)
    requires lo <= hi <= |a| == |b| == |c| && b[hi..] == a[hi..] && c[lo..] == b[lo..]
    ensures c[hi..] == a[hi..]
  {
    assert c[hi..] == c[lo..][hi - lo..];
    assert b[hi..] == b[lo..][hi - lo..];
  }

  /** First `w1`, then `w2` in front of it. */
  lemma PrependedThen(a: Bytes, b: Bytes, c: Bytes, offset: nat, o1: nat, ok: bool, o2: nat, w1: Bytes, w2: Bytes)
    requires Prepended(a, b, offset, true, o1, w1) && Prepended(b, c, o1, ok, o2, w2)
    ensures Prepended(a, c, offset, ok, o2, w2 + w1)
  {
    hide Wrote;
    TailKept(a, b, c, o1, offset);
    if ok {
      WroteBefore(a, b, c, o2, w2, w1);
    }
  }

  lemma PrependedFails(a: Bytes, b: Bytes, offset: nat, o: nat, w: Bytes, all: Bytes)
    requires Prepended(a, b, offset, false, o, w) && |w| <= |all|
    ensures Prepended(a, b, offset, false, o, all)
  {
  }

  lemma PrependedNothing(a: Bytes, offset: nat)
    requires offset <= |a|
    ensures Prepended(a, a, offset, true, offset, [])
  {
  }

  method PrependByte(v: Byte, offset: nat, buf: array<Byte>) returns (ok: bool, o: nat)
    requires offset <= buf.Length
    modifies buf
    ensures Prepended(old(buf[..]), buf[..], offset, ok, o, [v])
  {
    if offset < 1 {
      return false, 0;
    }
    o := offset - 1;
    buf[o] := v;
    ok := true;
  }

  /** One more digit in front of those written. */
  lemma BigEndianMore(v: nat, i: nat, rest: Bytes)
    requires i > 0
    ensures BigEndian(v, i) + rest == BigEndian(v / 256, i - 1) + ([v % 256] + rest)
  {
    assert BigEndian(v, i) == BigEndian(v / 256, i - 1) + [v % 256];
    AppendAssoc(BigEndian(v / 256, i - 1), [v % 256], rest);
  }

  /** The `n` low-order bytes of a number, where there is room for them. */
  method PrependDigits(val: nat, n: nat, offset: nat, buf: array<Byte>) returns (o: nat)
    requires n <= offset <= buf.Length
    modifies buf
    ensures Prepended(old(buf[..]), buf[..], offset, true, o, BigEndian(val, n))
  {
    hide Wrote, BigEndian, Prepended;
    o := offset;
    var v, i := val, 0;
    ghost var done: Bytes := [];
    PrependedNothing(buf[..], offset);
    while i < n
      invariant 0 <= i <= n && o == offset - i
      invariant Prepended(old(buf[..]), buf[..], offset, true, o, done)
      invariant BigEndian(val, n) == BigEndian(v, n - i) + done
    {
      BigEndianMore(v, n - i, done);
      ghost var mid, o1 := buf[..], o;
      o := o - 1;
      buf[o] := v % 256;
      OneByte(mid, buf[..], o, v % 256);
      PrependedThen(old(buf[..]), mid, buf[..], offset, o1, true, o, done, [v % 256]);
      done := [v % 256] + done;
      v := v / 256;
      i := i + 1;
    }
    assert BigEndian(v, 0) + done == done;
  }

  lemma OneByte(a: Bytes, b: Bytes, o: nat, v: Byte)
    requires o < |a| && b == a[o := v]
    ensures Prepended(a, b, o + 1, true, o, [v])
  {
  }

  method PrependTLval(val: nat, offset: nat, buf: array<Byte>) returns (ok: bool, o: nat)
    requires offset <= buf.Length
    modifies buf
    ensures Prepended(old(buf[..]), buf[..], offset, ok, o, VarInt(val))
  {
    hide BigEndian, Wrote, VarInt;
    VarIntForm(val);
    var len, t := 0, val;
    if val >= 253 {
      if val <= 0xffff {
        len, t := 2, 253;
      } else if val <= 0xffffffff {
        len, t := 4, 254;
      } else {
        len, t := 8, 255;
      }
    }
    assert BigEndian(val, 0) == [] && VarInt(val) == [t] + BigEndian(val, len);
    if offset < len + 1 {
      return false, 0;
    }
    o := PrependDigits(val, len, offset, buf);
    ghost var mid, o1 := buf[..], o;
    o := o - 1;
    buf[o] := t;
    OneByte(mid, buf[..], o, t);
    PrependedThen(old(buf[..]), mid, buf[..], offset, o1, true, o, BigEndian(val, len), [t]);
    ok := true;
  }

  method PrependTL(typ: nat, len: nat, offset: nat, buf: array<Byte>) returns (ok: bool, o: nat)
    requires offset <= buf.Length
    modifies buf
    ensures Prepended(old(buf[..]), buf[..], offset, ok, o, TypeLength(typ, len))
  {
    hide Prepended, VarInt;
    ok, o := PrependTLval(len, offset, buf);
    if !ok {
      PrependedFails(old(buf[..]), buf[..], offset, o, VarInt(len), TypeLength(typ, len));
      return;
    }
    ghost var mid, o1 := buf[..], o;
    Fits(old(buf[..]), mid, offset, o, VarInt(len));
    ok, o := PrependTLval(typ, o, buf);
    PrependedThen(old(buf[..]), mid, buf[..], offset, o1, ok, o, VarInt(len), VarInt(typ));
  }

  lemma Fits(a: Bytes, b: Bytes, offset: nat, o: nat, w: Bytes)
    requires Prepended(a, b, offset, true, o, w)
    ensures o == offset - |w| && offset <= |a| == |b|
  {
  }

  /** The digits of a number, then zeros in front, as the padding table says. */
  method PrependNonNegIntVal(val: U64, offset: nat, buf: array<Byte>) returns (ok: bool, o: nat)
    requires offset <= buf.Length
    modifies buf
    ensures Prepended(old(buf[..]), buf[..], offset, ok, o, NonNeg(val))
  {
    hide Wrote, BigEndian, Prepended, Width;
    o := offset;
    var v: U64, len := val, 0;
    ghost var n := Padded(Digits(val));
    ghost var done: Bytes := [];
    PrependedNothing(buf[..], offset);
    while v != 0
      invariant len + Digits(v) == Digits(val) && |done| == len
      invariant Prepended(old(buf[..]), buf[..], offset, true, o, done)
      invariant NonNeg(val) == BigEndian(v, n - len) + done
      decreases v
    {
      ghost var mid, o1 := buf[..], o;
      Fits(old(buf[..]), mid, offset, o, done);
      DigitsStep(v);
      BigEndianMore(v, n - len, done);
      ok, o := PrependByte(v % 256, o, buf);
      PrependedThen(old(buf[..]), mid, buf[..], offset, o1, ok, o, done, [v % 256]);
      done := [v % 256] + done;
      if !ok {
        PrependedFails(old(buf[..]), buf[..], offset, o, done, NonNeg(val));
        return;
      }
      len := len + 1;
      v := v / 256;
    }
    var fill := [1, 0, 0, 1, 0, 3, 2, 1, 0];
    var i := 0;
    while i < fill[len]
      invariant 0 <= i && len <= n <= 8 && |done| == len && Fill(i, len, n)
      invariant Prepended(old(buf[..]), buf[..], offset, true, o, done)
      invariant NonNeg(val) == BigEndian(0, n - len) + done
      decreases n - len
    {
      ghost var mid, o1 := buf[..], o;
      Fits(old(buf[..]), mid, offset, o, done);
      BigEndianMore(0, n - len, done);
      ok, o := PrependByte(0, o, buf);
      PrependedThen(old(buf[..]), mid, buf[..], offset, o1, ok, o, done, [0]);
      done := [0] + done;
      if !ok {
        PrependedFails(old(buf[..]), buf[..], offset, o, done, NonNeg(val));
        return;
      }
      len := len + 1;
      i := i + 1;
    }
    assert BigEndian(0, 0) + done == done;
    ok := true;
  }

  /** How far the padding loop has come: `i` zeros written, `len` bytes in all, `n` in the end. */
  predicate Fill(i: nat, len: nat, n: nat) {
    && i <= len <= n <= 8
    && n == Padded(len - i)
  }

  lemma DigitsStep(v: U64)
    requires v != 0
    ensures Digits(v) == 1 + Digits(v / 256)
  {
  }

  /** Put the type and length in front of a value already written. */
  method PrependHead(ghost before: Bytes, typ: nat, ghost v: Bytes, from: nat, offset: nat, buf: array<Byte>)
    returns (ok: bool, o: nat)
    requires Prepended(before, buf[..], from, true, offset, v)
    modifies buf
    ensures Prepended(before, buf[..], from, ok, o, Block(typ, v))
  {
    hide Wrote, TypeLength;
    ghost var mid := buf[..];
    Fits(before, mid, from, offset, v);
    ok, o := PrependTL(typ, from - offset, offset, buf);
    PrependedThen(before, mid, buf[..], from, offset, ok, o, v, TypeLength(typ, |v|));
  }

  method PrependNonNegInt(typ: nat, val: U64, offset: nat, buf: array<Byte>) returns (ok: bool, o: nat)
    requires offset <= buf.Length
    modifies buf
    ensures Prepended(old(buf[..]), buf[..], offset, ok, o, Block(typ, NonNeg(val)))
  {
    hide NonNeg, Prepended, TypeLength;
    ok, o := PrependNonNegIntVal(val, offset, buf);
    if !ok {
      PrependedFails(old(buf[..]), buf[..], offset, o, NonNeg(val), Block(typ, NonNeg(val)));
      return;
    }
    ok, o := PrependHead(old(buf[..]), typ, NonNeg(val), offset, o, buf);
  }

  method PrependIncludedNonNegInt(typ: nat, val: U64, offset: nat, buf: array<Byte>) returns (ok: bool, o: nat)
    requires offset <= buf.Length
    modifies buf
    ensures Prepended(old(buf[..]), buf[..], offset, ok, o, Block(typ, Marked(val)))
  {
    hide NonNeg, Prepended, TypeLength;
    ok, o := PrependNonNegIntVal(val, offset, buf);
    if !ok {
      PrependedFails(old(buf[..]), buf[..], offset, o, NonNeg(val), Block(typ, Marked(val)));
      return;
    }
    ghost var mid, o1 := buf[..], o;
    Fits(old(buf[..]), mid, offset, o, NonNeg(val));
    ok, o := PrependByte(MARKER_SEGMENT, o, buf);
    PrependedThen(old(buf[..]), mid, buf[..], offset, o1, ok, o, NonNeg(val), [MARKER_SEGMENT]);
    if !ok {
      PrependedFails(old(buf[..]), buf[..], offset, o, Marked(val), Block(typ, Marked(val)));
      return;
    }
    ok, o := PrependHead(old(buf[..]), typ, Marked(val), offset, o, buf);
  }

  method PrependBlob(typ: nat, blob: Bytes, offset: nat, buf: array<Byte>) returns (ok: bool, o: nat)
    requires offset <= buf.Length
    modifies buf
    ensures Prepended(old(buf[..]), buf[..], offset, ok, o, Block(typ, blob))
  {
    hide TypeLength;
    if offset < |blob| {
      return false, 0;
    }
    o := offset - |blob|;
    CopyTo(blob, buf, o);
    ok, o := PrependHead(old(buf[..]), typ, blob, offset, o, buf);
  }

  lemma {:induction false} ComponentsAppend(cs: seq<Bytes>, ds: seq<Bytes>)
    ensures Components(cs + ds) == Components(cs) + Components(ds)
  {
    hide Block;
    if cs == [] {
      assert cs + ds == ds;
    } else {
      assert (cs + ds)[1..] == cs[1..] + ds;
      ComponentsAppend(cs[1..], ds);
      AppendAssoc(Block(NAME_COMPONENT, cs[0]), Components(cs[1..]), Components(ds));
    }
  }

  lemma ComponentsFrom(cs: seq<Bytes>, k: nat, last: seq<Bytes>)
    requires k < |cs|
    ensures Components(cs[k..] + last) == Block(NAME_COMPONENT, cs[k]) + Components(cs[k + 1..] + last)
    ensures |Components(cs[k..] + last)| <= |Components(cs + last)|
  {
    hide Block;
    assert (cs[k..] + last)[1..] == cs[k + 1..] + last;
    assert cs[..k] + (cs[k..] + last) == cs + last;
    ComponentsAppend(cs[..k], cs[k..] + last);
  }

  method PrependName(name: NdnName, offset: nat, buf: array<Byte>) returns (ok: bool, o: nat)
    requires offset <= buf.Length
    modifies buf
    ensures Prepended(old(buf[..]), buf[..], offset, ok, o, NameBytes(name))
  {
    hide Prepended, Block, Marked;
    ok, o := true, offset;
    ghost var last := if name.chunk.Some? then [Marked(name.chunk.value)] else [];
    PrependedNothing(buf[..], offset);
    if name.chunk.Some? {
      ok, o := PrependIncludedNonNegInt(NAME_COMPONENT, name.chunk.value, offset, buf);
      OneComponent(Marked(name.chunk.value));
      if !ok {
        ComponentsAppend(name.comps, last);
        BlockLonger(NAME, Components(Travelling(name)));
        PrependedFails(old(buf[..]), buf[..], offset, o, Components(last), NameBytes(name));
        return;
      }
    }
    var cnt := |name.comps|;
    assert name.comps[cnt..] + last == last;
    while cnt > 0
      invariant 0 <= cnt <= |name.comps|
      invariant Prepended(old(buf[..]), buf[..], offset, true, o, Components(name.comps[cnt..] + last))
    {
      ghost var mid, o1, done := buf[..], o, Components(name.comps[cnt..] + last);
      Fits(old(buf[..]), mid, offset, o, done);
      ok, o := PrependBlob(NAME_COMPONENT, name.comps[cnt - 1], o, buf);
      PrependedThen(old(buf[..]), mid, buf[..], offset, o1, ok, o, done, Block(NAME_COMPONENT, name.comps[cnt - 1]));
      ComponentsFrom(name.comps, cnt - 1, last);
      cnt := cnt - 1;
      if !ok {
        BlockLonger(NAME, Components(Travelling(name)));
        PrependedFails(old(buf[..]), buf[..], offset, o, Components(name.comps[cnt..] + last), NameBytes(name));
        return;
      }
    }
    assert name.comps[0..] == name.comps;
    ok, o := PrependHead(old(buf[..]), NAME, Components(Travelling(name)), offset, o, buf);
  }

  lemma OneComponent(c: Bytes)
    ensures Components([c]) == Block(NAME_COMPONENT, c)
  {
    hide Block;
    assert Components([]) == [];
  }

  lemma BlockLonger(typ: nat, v: Bytes)
    ensures |Block(typ, v)| > |v|
  {
  }

  /** Put an optional field in front. */
  lemma Skip(a: Bytes, b: Bytes, offset: nat, o: nat, w: Bytes)
    requires Prepended(a, b, offset, true, o, w)
    ensures Prepended(a, b, offset, true, o, [] + w)
  {
    assert [] + w == w;
  }

  /** Guiders, nonce and selectors: what follows the name in an Interest. */
  method PrependGuiders(scope: int, opts: InterestOpts, offset: nat, buf: array<Byte>) returns (ok: bool, o: nat)
    requires offset <= buf.Length && scope <= 2
    modifies buf
    ensures Prepended(old(buf[..]), buf[..], offset, ok, o, LifetimeField(opts.lifetime) + ScopeField(scope))
  {
    hide Prepended, Block, NonNeg;
    ok, o := true, offset;
    PrependedNothing(buf[..], offset);
    ghost var all := LifetimeField(opts.lifetime) + ScopeField(scope);
    if scope >= 0 {
      ok, o := PrependNonNegInt(SCOPE, scope, offset, buf);
      if !ok {
        PrependedFails(old(buf[..]), buf[..], offset, o, ScopeField(scope), all);
        return;
      }
    }
    ghost var mid, o1 := buf[..], o;
    Fits(old(buf[..]), mid, offset, o, ScopeField(scope));
    if opts.lifetime != 0 {
      ok, o := PrependNonNegInt(INTEREST_LIFETIME, opts.lifetime, o, buf);
      PrependedThen(old(buf[..]), mid, buf[..], offset, o1, ok, o, ScopeField(scope), LifetimeField(opts.lifetime));
    } else {
      Skip(old(buf[..]), mid, offset, o, ScopeField(scope));
    }
  }

  method PrependSelectors(mustBeFresh: bool, offset: nat, buf: array<Byte>) returns (ok: bool, o: nat)
    requires offset <= buf.Length
    modifies buf
    ensures Prepended(old(buf[..]), buf[..], offset, ok, o, SelectorsField(mustBeFresh))
  {
    hide Prepended, TypeLength;
    ok, o := true, offset;
    PrependedNothing(buf[..], offset);
    if mustBeFresh {
      ok, o := PrependHead(old(buf[..]), MUST_BE_FRESH, [], offset, offset, buf);
      if !ok {
        PrependedFails(old(buf[..]), buf[..], offset, o, Block(MUST_BE_FRESH, []), SelectorsField(true));
        return;
      }
      ok, o := PrependHead(old(buf[..]), SELECTORS, Block(MUST_BE_FRESH, []), offset, o, buf);
    }
  }

  /** Write an Interest packet that ends right before `offset`. */
  method PrependInterest(name: NdnName, scope: int, opts: InterestOpts, offset: nat, buf: array<Byte>)
    returns (ok: bool, o: nat, reslen: nat)
    requires offset <= buf.Length
    modifies buf
    ensures ok <==> scope <= 2 && |InterestBytes(name, scope, opts)| <= offset
    ensures ok ==> reslen == offset - o && Wrote(old(buf[..]), buf[..], o, InterestBytes(name, scope, opts))
    ensures buf[offset..] == old(buf[offset..])
  {
    if scope > 2 {
      return false, 0, 0;
    }
    ok, o := PrependInterestBytes(name, scope, opts, offset, buf);
    if ok {
      reslen := offset - o;
    } else {
      reslen := 0;
    }
  }

  method PrependInterestBytes(name: NdnName, scope: int, opts: InterestOpts, offset: nat, buf: array<Byte>)
    returns (ok: bool, o: nat)
    requires offset <= buf.Length && scope <= 2
    modifies buf
    ensures Prepended(old(buf[..]), buf[..], offset, ok, o, InterestBytes(name, scope, opts))
  {
    hide Prepended, Block, NameBytes, SelectorsField, LifetimeField, ScopeField;
    ghost var a := buf[..];
    ghost var w1 := LifetimeField(opts.lifetime) + ScopeField(scope);
    ghost var w2 := Block(NONCE, opts.nonce) + w1;
    ghost var w3 := SelectorsField(opts.mustBeFresh) + w2;
    ghost var w4 := NameBytes(name) + w3;
    ghost var all := InterestBytes(name, scope, opts);
    assert w4 == InterestValue(name, scope, opts);
    BlockLonger(INTEREST, w4);
    ok, o := PrependGuiders(scope, opts, offset, buf);
    if !ok {
      PrependedFails(a, buf[..], offset, o, w1, all);
      return;
    }
    ghost var mid, o1 := buf[..], o;
    Fits(a, mid, offset, o, w1);
    ok, o := PrependBlob(NONCE, opts.nonce, o, buf);
    PrependedThen(a, mid, buf[..], offset, o1, ok, o, w1, Block(NONCE, opts.nonce));
    if !ok {
      PrependedFails(a, buf[..], offset, o, w2, all);
      return;
    }
    mid, o1 := buf[..], o;
    Fits(a, mid, offset, o, w2);
    ok, o := PrependSelectors(opts.mustBeFresh, o, buf);
    PrependedThen(a, mid, buf[..], offset, o1, ok, o, w2, SelectorsField(opts.mustBeFresh));
    if !ok {
      PrependedFails(a, buf[..], offset, o, w3, all);
      return;
    }
    mid, o1 := buf[..], o;
    Fits(a, mid, offset, o, w3);
    ok, o := PrependName(name, o, buf);
    PrependedThen(a, mid, buf[..], offset, o1, ok, o, w3, NameBytes(name));
    if !ok {
      PrependedFails(a, buf[..], offset, o, w4, all);
      return;
    }
    ok, o := PrependHead(a, INTEREST, w4, offset, o, buf);
  }

  /** Final block and freshness, under one head. */
  method PrependMetaInfo(opts: Option<DataOpts>, offset: nat, buf: array<Byte>) returns (ok: bool, o: nat)
    requires offset <= buf.Length
    modifies buf
    ensures Prepended(old(buf[..]), buf[..], offset, ok, o, Block(META_INFO, MetaInfo(opts)))
  {
    hide Prepended, TypeLength, NonNeg, Marked;
    ghost var a := buf[..];
    ghost var all := Block(META_INFO, MetaInfo(opts));
    ok, o := true, offset;
    PrependedNothing(a, offset);
    if opts.Some? {
      ghost var w1 := FinalBlockField(opts.value.finalBlockId);
      if opts.value.finalBlockId != UINT32_MAX {
        ghost var inner := Block(NAME_COMPONENT, Marked(opts.value.finalBlockId));
        ok, o := PrependIncludedNonNegInt(NAME_COMPONENT, opts.value.finalBlockId, offset, buf);
        if !ok {
          PrependedFails(a, buf[..], offset, o, inner, all);
          return;
        }
        ok, o := PrependHead(a, FINAL_BLOCK_ID, inner, offset, o, buf);
        if !ok {
          PrependedFails(a, buf[..], offset, o, w1, all);
          return;
        }
      }
      ghost var mid, o1 := buf[..], o;
      Fits(a, mid, offset, o, w1);
      if opts.value.freshness != 0 {
        ok, o := PrependNonNegInt(FRESHNESS_PERIOD, opts.value.freshness, o, buf);
        PrependedThen(a, mid, buf[..], offset, o1, ok, o, w1, FreshnessField(opts.value.freshness));
        if !ok {
          PrependedFails(a, buf[..], offset, o, MetaInfo(opts), all);
          return;
        }
      } else {
        Skip(a, mid, offset, o, w1);
      }
    }
    ok, o := PrependHead(a, META_INFO, MetaInfo(opts), offset, o, buf);
  }

  /** The signature fields; the result is 0, -1 or, when the room runs out in the middle, 1. */
  method PrependSignature(offset: nat, buf: array<Byte>) returns (rc: int, o: nat)
    requires offset <= buf.Length
    modifies buf
    ensures Prepended(old(buf[..]), buf[..], offset, rc == 0, o, Signature())
    ensures rc == if offset < 2 then -1 else if offset < 5 then 1 else if offset < 7 then -1 else 0
  {
    hide Prepended, TypeLength, Block;
    SignatureSizes();
    ghost var a := buf[..];
    ghost var w1 := Block(SIGNATURE_VALUE, []);
    ghost var typ := Block(SIGNATURE_TYPE, [0]);
    PrependedNothing(a, offset);
    var ok;
    ok, o := PrependHead(a, SIGNATURE_VALUE, [], offset, offset, buf);
    HasRoom(a, buf[..], offset, ok, o, w1);
    if !ok {
      PrependedFails(a, buf[..], offset, o, w1, Signature());
      return -1, o;
    }
    ghost var mid := buf[..];
    var o1 := o;
    ok, o := PrependBlob(SIGNATURE_TYPE, [0], o, buf);
    HasRoom(mid, buf[..], o1, ok, o, typ);
    if !ok {
      PrependedThen(a, mid, buf[..], offset, o1, ok, o, w1, typ);
      PrependedFails(a, buf[..], offset, o, typ + w1, Signature());
      return 1, o;
    }
    ok, o := PrependHead(mid, SIGNATURE_INFO, typ, o1, o, buf);
    HasRoom(mid, buf[..], o1, ok, o, Block(SIGNATURE_INFO, typ));
    PrependedThen(a, mid, buf[..], offset, o1, ok, o, w1, Block(SIGNATURE_INFO, typ));
    rc := if ok then 0 else -1;
  }

  lemma SignatureSizes()
    ensures |Block(SIGNATURE_VALUE, [])| == 2 && |Block(SIGNATURE_TYPE, [0])| == 3
    ensures |Block(SIGNATURE_INFO, Block(SIGNATURE_TYPE, [0]))| == 5 && |Signature()| == 7
  {
  }

  lemma HasRoom(a: Bytes, b: Bytes, offset: nat, ok: bool, o: nat, w: Bytes)
    requires Prepended(a, b, offset, ok, o, w)
    ensures (ok <==> |w| <= offset) && (ok ==> o == offset - |w|) && offset <= |a| == |b|
  {
  }

  /** Write a Data packet that ends right before `offset`. */
  method PrependContent(name: NdnName, payload: Bytes, opts: Option<DataOpts>, offset: nat, buf: array<Byte>)
    returns (rc: int, o: nat, reslen: nat)
    requires offset <= buf.Length
    modifies buf
    ensures rc == 0 <==> |DataBytes(name, payload, opts)| <= offset
    ensures rc == 0 ==> reslen == offset - o && Wrote(old(buf[..]), buf[..], o, DataBytes(name, payload, opts))
    ensures rc == 1 <==> 2 <= offset < 5
    ensures rc in {-1, 0, 1} && buf[offset..] == old(buf[offset..])
  {
    ghost var a := buf[..];
    rc, o := PrependSignature(offset, buf);
    reslen := 0;
    if rc != 0 {
      return;
    }
    var ok;
    ok, o := PrependDataBytes(a, name, payload, opts, offset, o, buf);
    if ok {
      reslen := offset - o;
    } else {
      rc := -1;
    }
  }

  method PrependDataBytes(ghost a: Bytes, name: NdnName, payload: Bytes, opts: Option<DataOpts>, offset: nat,
                          signed: nat, buf: array<Byte>) returns (ok: bool, o: nat)
    requires Prepended(a, buf[..], offset, true, signed, Signature())
    modifies buf
    ensures Prepended(a, buf[..], offset, ok, o, DataBytes(name, payload, opts))
  {
    hide Prepended, Block, NameBytes, MetaInfo, Signature;
    ghost var w1 := Block(CONTENT, payload) + Signature();
    ghost var w2 := Block(META_INFO, MetaInfo(opts)) + w1;
    ghost var w3 := NameBytes(name) + w2;
    ghost var all := DataBytes(name, payload, opts);
    assert w3 == DataValue(name, payload, opts);
    BlockLonger(DATA, w3);
    ghost var mid, o1 := buf[..], signed;
    Fits(a, mid, offset, signed, Signature());
    ok, o := PrependBlob(CONTENT, payload, signed, buf);
    PrependedThen(a, mid, buf[..], offset, o1, ok, o, Signature(), Block(CONTENT, payload));
    if !ok {
      PrependedFails(a, buf[..], offset, o, w1, all);
      return;
    }
    mid, o1 := buf[..], o;
    Fits(a, mid, offset, o, w1);
    ok, o := PrependMetaInfo(opts, o, buf);
    PrependedThen(a, mid, buf[..], offset, o1, ok, o, w1, Block(META_INFO, MetaInfo(opts)));
    if !ok {
      PrependedFails(a, buf[..], offset, o, w2, all);
      return;
    }
    mid, o1 := buf[..], o;
    Fits(a, mid, offset, o, w2);
    ok, o := PrependName(name, o, buf);
    PrependedThen(a, mid, buf[..], offset, o1, ok, o, w2, NameBytes(name));
    if !ok {
      PrependedFails(a, buf[..], offset, o, w3, all);
      return;
    }
    ok, o := PrependHead(a, DATA, w3, offset, o, buf);
  }
}
