/**
 The packets that were written, read again.
 */
module NdnRoundTrip {
  import opened Base
  import opened Tlv
  import opened Ndn
  import opened NdnRead

  lemma FirstByte(typ: nat, v: Bytes)
    requires typ < 253
    ensures Block(typ, v)[0] == typ
  {
  }

  lemma FieldsEnd(b: Bytes, end: nat, p: Pkt)
    requires end <= |b|
    ensures Fields(b, end, end, p) == Some(p)
  {
  }

  /** The name, which is not the last field and is met only once. */
  lemma NameFieldStep(b: Bytes, at: nat, end: nat, p: Pkt, name: NdnName)
    requires LiesAt(b, at, NameBytes(name)) && at + |NameBytes(name)| < end <= |b|
    requires |NameBytes(name)| < TWO32 && !p.named && b[at + |NameBytes(name)|] != MARKER_SEGMENT
    ensures var n := NameRead(name);
            Fields(b, at, end, p) == if n.None? then None else
              Fields(b, at + |NameBytes(name)|, end,
                     p.(named := true, comps := n.value.0, chunk := n.value.1, finalBlock := -1))
  {
    hide Block, Fields, Components, Travelling, Absorb, NameFrom;
    var ds := Travelling(name);
    BlockLonger(NAME, Components(ds));
    FieldStep(b, at, end, p, NAME, Components(ds));
    var pos := at + |NameBytes(name)| - |Components(ds)|;
    forall d | d in ds
      ensures |d| < TWO32
    {
      ComponentShorter(ds, d);
    }
    NameBack(b, pos, pos + |Components(ds)|, [], None, ds);
  }

  lemma {:induction false} ComponentShorter(ds: seq<Bytes>, d: Bytes)
    requires d in ds
    ensures |d| < |Components(ds)|
    decreases |ds|
  {
    hide Block;
    BlockLonger(NAME_COMPONENT, ds[0]);
    if d != ds[0] {
      ComponentShorter(ds[1..], d);
    }
  }

  lemma SelectorsStep(b: Bytes, at: nat, end: nat, p: Pkt, mustBeFresh: bool)
    requires LiesAt(b, at, SelectorsField(mustBeFresh)) && at + |SelectorsField(mustBeFresh)| <= end <= |b|
    ensures Fields(b, at, end, p) ==
            Fields(b, at + |SelectorsField(mustBeFresh)|, end, if mustBeFresh then p.(mustBeFresh := true) else p)
  {
    hide Block, Fields, Dehead, ReadNum;
    if mustBeFresh {
      var inner := Block(MUST_BE_FRESH, []);
      EmptyBlock(MUST_BE_FRESH);
      BlockLonger(SELECTORS, inner);
      FieldStep(b, at, end, p, SELECTORS, inner);
      var pos := at + |Block(SELECTORS, inner)| - |inner|;
      BlockBack(b, pos, pos + |inner|, MUST_BE_FRESH, []);
      SelectorsEnd(b, pos + |inner|, p.(mustBeFresh := true));
    }
  }

  lemma SelectorsEnd(b: Bytes, end: nat, p: Pkt)
    requires end <= |b|
    ensures SelectorsFrom(b, end, end, p) == Some(p)
  {
  }

  lemma EmptyBlock(typ: nat)
    requires typ < 253
    ensures |Block(typ, [])| == 2
  {
  }

  lemma LifetimeStep(b: Bytes, at: nat, end: nat, p: Pkt, lifetime: U32)
    requires LiesAt(b, at, LifetimeField(lifetime)) && at + |LifetimeField(lifetime)| <= end <= |b|
    ensures Fields(b, at, end, p) ==
            Fields(b, at + |LifetimeField(lifetime)|, end, if lifetime != 0 then p.(lifetime := lifetime) else p)
  {
    hide Block, Fields, NonNeg, ReadNum;
    if lifetime != 0 {
      NonNegSize(lifetime);
      BlockLonger(INTEREST_LIFETIME, NonNeg(lifetime));
      FieldStep(b, at, end, p, INTEREST_LIFETIME, NonNeg(lifetime));
      NonNegBack(b, at + |LifetimeField(lifetime)| - |NonNeg(lifetime)|, lifetime);
    }
  }

  lemma ScopeStep(b: Bytes, at: nat, end: nat, p: Pkt, scope: int)
    requires scope <= 2 && LiesAt(b, at, ScopeField(scope)) && at + |ScopeField(scope)| <= end <= |b|
    ensures Fields(b, at, end, p) ==
            Fields(b, at + |ScopeField(scope)|, end, if scope >= 0 then p.(scope := scope) else p)
  {
    hide Block, Fields, NonNeg, ReadNum;
    if scope >= 0 {
      NonNegSize(scope);
      BlockLonger(SCOPE, NonNeg(scope));
      FieldStep(b, at, end, p, SCOPE, NonNeg(scope));
      NonNegBack(b, at + |ScopeField(scope)| - |NonNeg(scope)|, scope);
    }
  }

  /** What should be read of an Interest: absent guiders have their defaults. */
  function InterestRead(name: NdnName, scope: int, opts: InterestOpts): Option<(nat, Pkt)>
    requires scope <= 2
  {
    var n := NameRead(name);
    if n.None? then None else
      Some((INTEREST, Pkt(true, n.value.0, n.value.1, -1, 0, MAX_NAME_COMP, opts.mustBeFresh, Some(opts.nonce),
                          if scope >= 0 then scope else 3, None,
                          if opts.lifetime != 0 then opts.lifetime else DEFAULT_LIFETIME, 0, false, false)))
  }

  lemma GuidersBack(b: Bytes, at: nat, end: nat, p: Pkt, scope: int, opts: InterestOpts)
    requires scope <= 2 && |opts.nonce| < TWO32
    requires var w := SelectorsField(opts.mustBeFresh) + (Block(NONCE, opts.nonce)
                      + (LifetimeField(opts.lifetime) + ScopeField(scope)));
             LiesAt(b, at, w) && end == at + |w|
    ensures Fields(b, at, |b|, p) ==
            Fields(b, end, |b|, p.(mustBeFresh := p.mustBeFresh || opts.mustBeFresh, nonce := Some(opts.nonce),
                                   lifetime := if opts.lifetime != 0 then opts.lifetime else p.lifetime,
                                   scope := if scope >= 0 then scope else p.scope))
  {
    hide Block, Fields, NonNeg, SelectorsField, LifetimeField, ScopeField, LiesAt;
    var w1 := LifetimeField(opts.lifetime) + ScopeField(scope);
    var w2 := Block(NONCE, opts.nonce) + w1;
    LiesApart(b, at, SelectorsField(opts.mustBeFresh), w2);
    var at2 := at + |SelectorsField(opts.mustBeFresh)|;
    LiesApart(b, at2, Block(NONCE, opts.nonce), w1);
    var at1 := at2 + |Block(NONCE, opts.nonce)|;
    LiesApart(b, at1, LifetimeField(opts.lifetime), ScopeField(scope));
    var p1 := if opts.mustBeFresh then p.(mustBeFresh := true) else p;
    SelectorsStep(b, at, |b|, p, opts.mustBeFresh);
    BlockLonger(NONCE, opts.nonce);
    FieldStep(b, at2, |b|, p1, NONCE, opts.nonce);
    LiesMeans(b, at1 - |opts.nonce|, opts.nonce);
    var p2 := p1.(nonce := Some(opts.nonce));
    LifetimeStep(b, at1, |b|, p2, opts.lifetime);
    var p3 := if opts.lifetime != 0 then p2.(lifetime := opts.lifetime) else p2;
    ScopeStep(b, at1 + |LifetimeField(opts.lifetime)|, |b|, p3, scope);
  }

  lemma WholeLies(b: Bytes)
    ensures LiesAt(b, 0, b)
  {
    assert b[0..|b|] == b;
  }

  lemma Begins(w: Bytes, tail: Bytes)
    ensures LiesAt(w + tail, 0, w)
  {
    assert (w + tail)[0..|w|] == w;
  }

  /** The packet `r` has been read up to `at`, and the rest of the bytes as more fields of it. */
  function Onwards(b: Bytes, at: nat, r: Option<(nat, Pkt)>): Option<(nat, Pkt)>
    requires at <= |b|
  {
    if r.None? then None else
      var q := Fields(b, at, |b|, r.value.1);
      if q.None? then None else Some((r.value.0, q.value))
  }

  /** Every field of an Interest is read as it was written, the name as far as names survive; what follows
      is read as more fields. */
  lemma InterestThen(name: NdnName, scope: int, opts: InterestOpts, tail: Bytes)
    requires scope <= 2 && |InterestValue(name, scope, opts)| < TWO32
    ensures var w := InterestBytes(name, scope, opts);
            Parse(w + tail) == Onwards(w + tail, |w|, InterestRead(name, scope, opts))
  {
    hide Block, Fields, NonNeg, SelectorsField, LifetimeField, ScopeField, LiesAt, NameBytes, NameRead, Dehead;
    var v := InterestValue(name, scope, opts);
    var w := Block(INTEREST, v);
    var b := w + tail;
    Begins(w, tail);
    BlockBack(b, 0, |b|, INTEREST, v);
    var pos := |w| - |v|;
    var rest := SelectorsField(opts.mustBeFresh) + (Block(NONCE, opts.nonce)
                + (LifetimeField(opts.lifetime) + ScopeField(scope)));
    LiesApart(b, pos, NameBytes(name), rest);
    GuidersStart(opts.mustBeFresh, opts.nonce, LifetimeField(opts.lifetime) + ScopeField(scope));
    var at := pos + |NameBytes(name)|;
    LiesMeans(b, at, rest);
    assert b[at] == rest[0];
    NameFieldStep(b, pos, |b|, Blank(), name);
    var n := NameRead(name);
    if n.Some? {
      BlockLonger(NONCE, opts.nonce);
      var p := Blank().(named := true, comps := n.value.0, chunk := n.value.1, finalBlock := -1);
      GuidersBack(b, at, |w|, p, scope, opts);
    }
  }

  /** An Interest comes back. One of 2^32 bytes or more is not understood. */
  lemma InterestRoundTrip(name: NdnName, scope: int, opts: InterestOpts)
    requires scope <= 2
    ensures Parse(InterestBytes(name, scope, opts)) ==
            if |InterestValue(name, scope, opts)| < TWO32 then InterestRead(name, scope, opts) else None
  {
    hide Block, Fields, InterestRead, InterestValue, Dehead;
    var v := InterestValue(name, scope, opts);
    var w := InterestBytes(name, scope, opts);
    if |v| >= TWO32 {
      TooLong(INTEREST, v);
    } else {
      InterestThen(name, scope, opts, []);
      assert w + [] == w;
      NothingMore(w, InterestRead(name, scope, opts));
    }
  }

  lemma NothingMore(b: Bytes, r: Option<(nat, Pkt)>)
    ensures Onwards(b, |b|, r) == r
  {
    if r.Some? {
      FieldsEnd(b, |b|, r.value.1);
    }
  }

  lemma GuidersStart(mustBeFresh: bool, nonce: Bytes, w: Bytes)
    ensures var rest := SelectorsField(mustBeFresh) + (Block(NONCE, nonce) + w);
            |rest| > 0 && rest[0] != MARKER_SEGMENT
  {
    hide Block;
    BlockLonger(NONCE, nonce);
    FirstByte(NONCE, nonce);
    BlockLonger(SELECTORS, Block(MUST_BE_FRESH, []));
    FirstByte(SELECTORS, Block(MUST_BE_FRESH, []));
  }

  lemma TooLong(typ: nat, v: Bytes)
    requires typ < 253 && |v| >= TWO32
    ensures !Dehead(Block(typ, v), 0, |Block(typ, v)|).ok
  {
    hide ReadVar, VarInt;
    var b := Block(typ, v);
    WholeLies(b);
    LiesApart(b, 0, TypeLength(typ, |v|), v);
    LiesApart(b, 0, VarInt(typ), VarInt(|v|));
    assert FieldLen(typ) == |VarInt(typ)| && FieldLen(|v|) == |VarInt(|v|)|;
    ReadVarInt(b, 0, |b|, typ);
    ReadVarInt(b, |VarInt(typ)|, |b|, |v|);
  }

  // ---------------------------------------------------------------- a stray end

  /** Behind `at` there is no header to read. The packet is taken as if nothing followed if looking for the
      header uses up the bytes, and is refused if not. */
  lemma StrayEnd(b: Bytes, at: nat, r: Option<(nat, Pkt)>)
    requires at <= |b| && !Dehead(b, at, |b|).ok
    ensures Onwards(b, at, r) == if Dehead(b, at, |b|).pos == |b| then r else None
  {
  }

  lemma StrayByte(w: Bytes, x: Byte, r: Option<(nat, Pkt)>)
    requires x < 253
    ensures Onwards(w + [x], |w|, r) == r
  {
    StrayEnd(w + [x], |w|, r);
  }

  /** A header of two bytes at the very end, whose value is missing, goes unnoticed if it announces more bytes than
      the header has itself; if it announces one or two, the packet is refused. */
  lemma StrayHeader(w: Bytes, typ: Byte, len: Byte, r: Option<(nat, Pkt)>)
    requires typ < 253 && 0 < len < 253
    ensures Onwards(w + [typ, len], |w|, r) == if len > 2 then r else None
  {
    hide Field;
    var b := w + [typ, len];
    assert b[|w|] == typ && b[|w| + 1] == len;
    assert Dehead(b, |w|, |b|) == Head(len <= 2, typ, len, |b|);
  }

  /** A byte below 253 behind an Interest goes unnoticed, whatever Interest and byte. */
  lemma InterestStray(name: NdnName, scope: int, opts: InterestOpts, x: Byte)
    requires scope <= 2 && |InterestValue(name, scope, opts)| < TWO32 && x < 253
    ensures Parse(InterestBytes(name, scope, opts) + [x]) == Parse(InterestBytes(name, scope, opts))
  {
    hide InterestRead, Onwards, InterestBytes, InterestValue, Parse;
    InterestThen(name, scope, opts, [x]);
    StrayByte(InterestBytes(name, scope, opts), x, InterestRead(name, scope, opts));
    InterestRoundTrip(name, scope, opts);
  }

  // ---------------------------------------------------------------- Data

  lemma FreshnessStep(b: Bytes, at: nat, end: nat, p: Pkt, freshness: U32)
    requires LiesAt(b, at, FreshnessField(freshness)) && at + |FreshnessField(freshness)| <= end <= |b|
    ensures MetaFrom(b, at, end, p) ==
            MetaFrom(b, at + |FreshnessField(freshness)|, end, if freshness != 0 then p.(freshness := freshness) else p)
  {
    hide Block, Dehead, NonNeg, ReadNum;
    if freshness != 0 {
      NonNegSize(freshness);
      BlockBack(b, at, end, FRESHNESS_PERIOD, NonNeg(freshness));
      NonNegBack(b, at + |FreshnessField(freshness)| - |NonNeg(freshness)|, freshness);
    }
  }

  lemma FinalBlockStep(b: Bytes, at: nat, end: nat, p: Pkt, id: U32)
    requires LiesAt(b, at, FinalBlockField(id)) && at + |FinalBlockField(id)| <= end <= |b|
    ensures MetaFrom(b, at, end, p) ==
            MetaFrom(b, at + |FinalBlockField(id)|, end, if id != UINT32_MAX then p.(finalBlock := id) else p)
  {
    hide Block, Dehead, Marked, ReadNum;
    if id != UINT32_MAX {
      var c := Marked(id);
      var inner := Block(NAME_COMPONENT, c);
      MarkedSize(id);
      BlockSize(NAME_COMPONENT, c);
      BlockBack(b, at, end, FINAL_BLOCK_ID, inner);
      var pos := at + |Block(FINAL_BLOCK_ID, inner)| - |inner|;
      BlockBack(b, pos, end, NAME_COMPONENT, c);
      MarkedBack(b, pos + |inner| - |c|, id);
    }
  }

  lemma MarkedSize(v: U64)
    ensures 1 < |Marked(v)| <= 9
  {
    hide NonNeg;
    NonNegSize(v);
  }

  lemma BlockSize(typ: nat, v: Bytes)
    requires typ < 253 && |v| < 253
    ensures |Block(typ, v)| == 2 + |v|
  {
  }

  lemma MetaInfoSize(opts: Option<DataOpts>)
    ensures |MetaInfo(opts)| < 253
  {
    hide Block, NonNeg, Marked;
    if opts.Some? {
      NonNegSize(opts.value.freshness);
      BlockSize(FRESHNESS_PERIOD, NonNeg(opts.value.freshness));
      MarkedSize(opts.value.finalBlockId);
      BlockSize(NAME_COMPONENT, Marked(opts.value.finalBlockId));
      BlockSize(FINAL_BLOCK_ID, Block(NAME_COMPONENT, Marked(opts.value.finalBlockId)));
    }
  }

  function WithMeta(p: Pkt, opts: Option<DataOpts>): Pkt {
    if opts.None? then p else
      var q := if opts.value.freshness != 0 then p.(freshness := opts.value.freshness) else p;
      if opts.value.finalBlockId != UINT32_MAX then q.(finalBlock := opts.value.finalBlockId) else q
  }

  lemma MetaBack(b: Bytes, at: nat, end: nat, p: Pkt, opts: Option<DataOpts>)
    requires LiesAt(b, at, MetaInfo(opts)) && end == at + |MetaInfo(opts)|
    ensures MetaFrom(b, at, end, p) == Some(WithMeta(p, opts))
  {
    hide FreshnessField, FinalBlockField, Dehead, ReadNum;
    if opts.Some? {
      var w1, w2 := FreshnessField(opts.value.freshness), FinalBlockField(opts.value.finalBlockId);
      LiesApart(b, at, w1, w2);
      FreshnessStep(b, at, end, p, opts.value.freshness);
      var q := if opts.value.freshness != 0 then p.(freshness := opts.value.freshness) else p;
      FinalBlockStep(b, at + |w1|, end, q, opts.value.finalBlockId);
    }
  }

  /** What should be read of a Data packet. */
  function DataRead(name: NdnName, payload: Bytes, opts: Option<DataOpts>): Option<(nat, Pkt)> {
    var n := NameRead(name);
    if n.None? then None else
      Some((DATA, WithMeta(Pkt(true, n.value.0, n.value.1, -1, 0, MAX_NAME_COMP, false, None, 3,
                               Some(payload), DEFAULT_LIFETIME, 0, false, false), opts)))
  }

  lemma SignatureBack(b: Bytes, at: nat, p: Pkt)
    requires LiesAt(b, at, Signature())
    ensures Fields(b, at, |b|, p) == Fields(b, at + |Signature()|, |b|, p)
  {
    hide Block, Fields, LiesAt;
    var info := Block(SIGNATURE_TYPE, [0]);
    BlockSize(SIGNATURE_TYPE, [0]);
    LiesApart(b, at, Block(SIGNATURE_INFO, info), Block(SIGNATURE_VALUE, []));
    FieldStep(b, at, |b|, p, SIGNATURE_INFO, info);
    FieldStep(b, at + |Block(SIGNATURE_INFO, info)|, |b|, p, SIGNATURE_VALUE, []);
  }

  lemma AfterNameBack(b: Bytes, at: nat, end: nat, p: Pkt, payload: Bytes, opts: Option<DataOpts>)
    requires |payload| < TWO32
    requires var w := Block(META_INFO, MetaInfo(opts)) + (Block(CONTENT, payload) + Signature());
             LiesAt(b, at, w) && end == at + |w|
    ensures Fields(b, at, |b|, p) == Fields(b, end, |b|, WithMeta(p, opts).(content := Some(payload)))
  {
    hide Block, Fields, Signature, LiesAt, MetaInfo, MetaFrom;
    var w1 := Block(CONTENT, payload) + Signature();
    var m := MetaInfo(opts);
    MetaInfoSize(opts);
    LiesApart(b, at, Block(META_INFO, m), w1);
    var at1 := at + |Block(META_INFO, m)|;
    LiesApart(b, at1, Block(CONTENT, payload), Signature());
    FieldStep(b, at, |b|, p, META_INFO, m);
    BlockLonger(META_INFO, m);
    MetaBack(b, at1 - |m|, at1, p, opts);
    var q := WithMeta(p, opts);
    FieldStep(b, at1, |b|, q, CONTENT, payload);
    var at2 := at1 + |Block(CONTENT, payload)|;
    BlockLonger(CONTENT, payload);
    LiesMeans(b, at2 - |payload|, payload);
    SignatureBack(b, at2, q.(content := Some(payload)));
  }

  /** Name, payload, freshness and final block of a Data packet are read as they were written; what follows
      is read as more fields. */
  lemma DataThen(name: NdnName, payload: Bytes, opts: Option<DataOpts>, tail: Bytes)
    requires |DataValue(name, payload, opts)| < TWO32
    ensures var w := DataBytes(name, payload, opts);
            Parse(w + tail) == Onwards(w + tail, |w|, DataRead(name, payload, opts))
  {
    hide Block, Fields, Signature, LiesAt, MetaInfo, NameBytes, NameRead, Dehead;
    var v := DataValue(name, payload, opts);
    var w := Block(DATA, v);
    var b := w + tail;
    Begins(w, tail);
    BlockBack(b, 0, |b|, DATA, v);
    var pos := |w| - |v|;
    var rest := Block(META_INFO, MetaInfo(opts)) + (Block(CONTENT, payload) + Signature());
    LiesApart(b, pos, NameBytes(name), rest);
    BlockLonger(META_INFO, MetaInfo(opts));
    FirstByte(META_INFO, MetaInfo(opts));
    var at := pos + |NameBytes(name)|;
    LiesMeans(b, at, rest);
    assert b[at] == rest[0];
    NameFieldStep(b, pos, |b|, Blank(), name);
    var n := NameRead(name);
    if n.Some? {
      BlockLonger(CONTENT, payload);
      var p := Blank().(named := true, comps := n.value.0, chunk := n.value.1, finalBlock := -1);
      AfterNameBack(b, at, |w|, p, payload, opts);
    }
  }

  /** A Data packet comes back. One of 2^32 bytes or more is not understood. */
  lemma DataRoundTrip(name: NdnName, payload: Bytes, opts: Option<DataOpts>)
    ensures Parse(DataBytes(name, payload, opts)) ==
            if |DataValue(name, payload, opts)| < TWO32 then DataRead(name, payload, opts) else None
  {
    hide Block, Fields, DataRead, DataValue, Dehead;
    var v := DataValue(name, payload, opts);
    var w := DataBytes(name, payload, opts);
    if |v| >= TWO32 {
      TooLong(DATA, v);
    } else {
      DataThen(name, payload, opts, []);
      assert w + [] == w;
      NothingMore(w, DataRead(name, payload, opts));
    }
  }

  /** Nor is a byte below 253 noticed behind a Data packet. */
  lemma DataStray(name: NdnName, payload: Bytes, opts: Option<DataOpts>, x: Byte)
    requires |DataValue(name, payload, opts)| < TWO32 && x < 253
    ensures Parse(DataBytes(name, payload, opts) + [x]) == Parse(DataBytes(name, payload, opts))
  {
    hide DataRead, Onwards, DataBytes, DataValue, Parse;
    DataThen(name, payload, opts, [x]);
    StrayByte(DataBytes(name, payload, opts), x, DataRead(name, payload, opts));
    DataRoundTrip(name, payload, opts);
  }
}
