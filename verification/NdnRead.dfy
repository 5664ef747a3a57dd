/**
 Reading NDN packets, and what is read of the packets that were written.
 */
module NdnRead {
  import opened Base
  import opened Tlv
  import opened Ndn

  const MAX_NAME_COMP: nat := 64
  const DEFAULT_LIFETIME: nat := 10000   // milliseconds
  const FRAG_FIELDS: nat := 0x5c
  const INT64_LIMIT: nat := 0x8000_0000_0000_0000

  /** What has been read of a packet. `finalBlock` shares its place with a fragment number; `begins` and
      `closes` say that a fragment is the first or the last of its packet. */
  datatype Pkt = Pkt(
    named: bool, comps: seq<Bytes>, chunk: Option<U32>, finalBlock: int,
    minSuffix: U64, maxSuffix: U64, mustBeFresh: bool, nonce: Option<Bytes>, scope: U64,
    content: Option<Bytes>, lifetime: U64, freshness: U64, begins: bool, closes: bool)

  function Blank(): Pkt {
    Pkt(false, [], None, 0, 0, MAX_NAME_COMP, false, None, 3, None, DEFAULT_LIFETIME, 0, false, false)
  }

  /** Header at `at`, and where the reader stands afterwards, be it good or not. */
  datatype Head = Head(ok: bool, typ: nat, len: nat, pos: nat)

  function Dehead(b: Bytes, at: nat, end: nat): (h: Head)
    requires at <= end <= |b|
    ensures at <= h.pos <= end && (h.ok ==> at < h.pos)
  {
    var typ := ReadVar(b, at, end);
    if typ.None? then Head(false, 0, 0, at) else
      var len := ReadVar(b, at + typ.value.1, end);
      if len.None? then Head(false, 0, 0, at + typ.value.1)
      else Head(len.value.0 <= end - at, typ.value.0, len.value.0, at + typ.value.1 + len.value.1)
  }

  /** The header is good and its value lies before `end`. */
  predicate Sane(h: Head, end: nat) {
    h.ok && h.pos + h.len <= end
  }

  /** The components from `at` on; the first 64 are kept. A component that starts with the segment marker
      is a number as well, which must fit 32 bits. */
  function NameFrom(b: Bytes, at: nat, end: nat, cs: seq<Bytes>, chunk: Option<U32>): Option<(seq<Bytes>, Option<U32>)>
    requires at <= end <= |b|
    decreases end - at
  {
    if at == end then Some((cs, chunk)) else
      var h := Dehead(b, at, end);
      if !Sane(h, end) then None
      else if h.typ != NAME_COMPONENT || |cs| >= MAX_NAME_COMP then NameFrom(b, h.pos + h.len, end, cs, chunk)
      else
        var cs' := cs + [b[h.pos..h.pos + h.len]];
        if h.pos < |b| && b[h.pos] == MARKER_SEGMENT then
          if h.len == 0 || ReadNum(b, h.pos + 1, h.len - 1) > UINT32_MAX then None
          else NameFrom(b, h.pos + h.len, end, cs', Some(ReadNum(b, h.pos + 1, h.len - 1)))
        else NameFrom(b, h.pos + h.len, end, cs', chunk)
  }

  function SelectorsFrom(b: Bytes, at: nat, end: nat, p: Pkt): Option<Pkt>
    requires at <= end <= |b|
    decreases end - at
  {
    if at == end then Some(p) else
      var h := Dehead(b, at, end);
      if !Sane(h, end) then None else
        var p' :=
          if h.typ == MIN_SUFFIX then p.(minSuffix := ReadNum(b, h.pos, h.len))
          else if h.typ == MAX_SUFFIX then p.(maxSuffix := ReadNum(b, h.pos, h.len))
          else if h.typ == MUST_BE_FRESH then p.(mustBeFresh := true)
          else p;
        SelectorsFrom(b, h.pos + h.len, end, p')
  }

  function MetaFrom(b: Bytes, at: nat, end: nat, p: Pkt): Option<Pkt>
    requires at <= end <= |b|
    decreases end - at
  {
    if at == end then Some(p) else
      var h := Dehead(b, at, end);
      if !Sane(h, end) then None
      else if h.typ == FRESHNESS_PERIOD then
        MetaFrom(b, h.pos + h.len, end, p.(freshness := ReadNum(b, h.pos, h.len)))
      else if h.typ == FINAL_BLOCK_ID then
        var g := Dehead(b, h.pos, end);
        if !Sane(g, end) then None
        else if g.typ != NAME_COMPONENT then MetaFrom(b, g.pos + g.len, end, p)
        else if g.len == 0 || ReadNum(b, g.pos + 1, g.len - 1) >= INT64_LIMIT then None
        else MetaFrom(b, g.pos + g.len, end, p.(finalBlock := ReadNum(b, g.pos + 1, g.len - 1)))
      else MetaFrom(b, h.pos + h.len, end, p)
  }

  /** One field of the packet, its value `len` bytes at `pos`. */
  function Field(b: Bytes, p: Pkt, typ: nat, pos: nat, len: nat): Option<Pkt>
    requires pos + len <= |b|
  {
    var v := b[pos..pos + len];
    if typ == NAME then
      if p.named then None else
        var n := NameFrom(b, pos, pos + len, [], None);
        if n.None? then None
        else Some(p.(named := true, comps := n.value.0, chunk := n.value.1, finalBlock := -1))
    else if typ == SELECTORS then SelectorsFrom(b, pos, pos + len, p)
    else if typ == NONCE then Some(p.(nonce := Some(v)))
    else if typ == SCOPE then Some(p.(scope := ReadNum(b, pos, len)))
    else if typ == CONTENT || typ == NDNLP_FRAGMENT then Some(p.(content := Some(v)))
    else if typ == META_INFO then MetaFrom(b, pos, pos + len, p)
    else if typ == INTEREST_LIFETIME then Some(p.(lifetime := ReadNum(b, pos, len)))
    else if typ == FRAG_FIELDS then
      var num := ReadNum(b, pos, len);
      Some(p.(finalBlock := num % 0x4000, begins := p.begins || num / 0x4000 % 2 == 1,
              closes := p.closes || num / 0x8000 % 2 == 1))
    else Some(p)
  }

  /** The fields from `at` on. Reading stops at a bad header, which is no error if nothing is left then: a
      type without a length, or with one that is too large, may end a packet. */
  function Fields(b: Bytes, at: nat, end: nat, p: Pkt): Option<Pkt>
    requires at <= end <= |b|
    decreases end - at
  {
    var h := Dehead(b, at, end);
    if !h.ok then (if h.pos == end then Some(p) else None)
    else if h.pos + h.len > end then None
    else
      var p' := Field(b, p, h.typ, h.pos, h.len);
      if p'.None? then None else Fields(b, h.pos + h.len, end, p'.value)
  }

  /** An Interest, a Data packet or a fragment. */
  predicate Accepted(typ: nat) {
    typ == INTEREST || typ == DATA || typ == NDNLP
  }

  /** A packet as the forwarder reads it: type and length, then the fields. */
  function Parse(b: Bytes): Option<(nat, Pkt)> {
    var h := Dehead(b, 0, |b|);
    if !Sane(h, |b|) || !Accepted(h.typ) then None else
      var p := Fields(b, h.pos, |b|, Blank());
      if p.None? then None else Some((h.typ, p.value))
  }

  // ---------------------------------------------------------------- the code that reads

  method ReadName(b: Bytes, from: nat, end: nat) returns (r: Option<(seq<Bytes>, Option<U32>)>)
    requires from <= end <= |b|
    ensures r == NameFrom(b, from, end, [], None)
  {
    hide Dehead, ReadNum;
    var at := from;
    var cs: seq<Bytes> := [];
    var chunk: Option<U32> := None;
    while at < end
      invariant from <= at <= end
      invariant NameFrom(b, from, end, [], None) == NameFrom(b, at, end, cs, chunk)
      decreases end - at
    {
      var h := Dehead(b, at, end);
      if !Sane(h, end) {
        return None;
      }
      if h.typ == NAME_COMPONENT && |cs| < MAX_NAME_COMP {
        if h.pos < |b| && b[h.pos] == MARKER_SEGMENT {
          if h.len == 0 {
            return None;
          }
          var num := ReadNonNeg(b, h.pos + 1, h.len - 1);
          if num > UINT32_MAX {
            return None;
          }
          chunk := Some(num);
        }
        cs := cs + [b[h.pos..h.pos + h.len]];
      }
      at := h.pos + h.len;
    }
    r := Some((cs, chunk));
  }

  method ReadSelectors(b: Bytes, from: nat, end: nat, p: Pkt) returns (r: Option<Pkt>)
    requires from <= end <= |b|
    ensures r == SelectorsFrom(b, from, end, p)
  {
    hide Dehead, ReadNum;
    var at, q := from, p;
    while at < end
      invariant from <= at <= end
      invariant SelectorsFrom(b, from, end, p) == SelectorsFrom(b, at, end, q)
      decreases end - at
    {
      var h := Dehead(b, at, end);
      if !Sane(h, end) {
        return None;
      }
      if h.typ == MIN_SUFFIX {
        var num := ReadNonNeg(b, h.pos, h.len);
        q := q.(minSuffix := num);
      } else if h.typ == MAX_SUFFIX {
        var num := ReadNonNeg(b, h.pos, h.len);
        q := q.(maxSuffix := num);
      } else if h.typ == MUST_BE_FRESH {
        q := q.(mustBeFresh := true);
      }
      at := h.pos + h.len;
    }
    r := Some(q);
  }

  method ReadMetaInfo(b: Bytes, from: nat, end: nat, p: Pkt) returns (r: Option<Pkt>)
    requires from <= end <= |b|
    ensures r == MetaFrom(b, from, end, p)
  {
    hide Dehead, ReadNum;
    var at, q := from, p;
    while at < end
      invariant from <= at <= end
      invariant MetaFrom(b, from, end, p) == MetaFrom(b, at, end, q)
      decreases end - at
    {
      var h := Dehead(b, at, end);
      if !Sane(h, end) {
        return None;
      }
      if h.typ == FRESHNESS_PERIOD {
        var num := ReadNonNeg(b, h.pos, h.len);
        q := q.(freshness := num);
      }
      if h.typ == FINAL_BLOCK_ID {
        h := Dehead(b, h.pos, end);
        if !Sane(h, end) {
          return None;
        }
        if h.typ == NAME_COMPONENT {
          if h.len == 0 {
            return None;
          }
          var num := ReadNonNeg(b, h.pos + 1, h.len - 1);
          if num >= INT64_LIMIT {
            return None;
          }
          q := q.(finalBlock := num);
        }
      }
      at := h.pos + h.len;
    }
    r := Some(q);
  }

  method ReadField(b: Bytes, p: Pkt, typ: nat, pos: nat, len: nat) returns (r: Option<Pkt>)
    requires pos + len <= |b|
    ensures r == Field(b, p, typ, pos, len)
  {
    hide NameFrom, SelectorsFrom, MetaFrom, ReadNum;
    r := Some(p);
    if typ == NAME {
      if p.named {
        return None;
      }
      var n := ReadName(b, pos, pos + len);
      r := if n.None? then None
           else Some(p.(named := true, comps := n.value.0, chunk := n.value.1, finalBlock := -1));
    } else if typ == SELECTORS {
      r := ReadSelectors(b, pos, pos + len, p);
    } else if typ == NONCE {
      r := Some(p.(nonce := Some(b[pos..pos + len])));
    } else if typ == SCOPE {
      var num := ReadNonNeg(b, pos, len);
      r := Some(p.(scope := num));
    } else if typ == CONTENT || typ == NDNLP_FRAGMENT {
      r := Some(p.(content := Some(b[pos..pos + len])));
    } else if typ == META_INFO {
      r := ReadMetaInfo(b, pos, pos + len, p);
    } else if typ == INTEREST_LIFETIME {
      var num := ReadNonNeg(b, pos, len);
      r := Some(p.(lifetime := num));
    } else if typ == FRAG_FIELDS {
      var num := ReadNonNeg(b, pos, len);
      var q := p;
      if num / 0x4000 % 2 == 1 {
        q := q.(begins := true);
      }
      if num / 0x8000 % 2 == 1 {
        q := q.(closes := true);
      }
      r := Some(q.(finalBlock := num % 0x4000));
    }
  }

  /** Reads field after field until no header can be read. */
  method Bytes2Pkt(typ: nat, b: Bytes, from: nat) returns (r: Option<Pkt>)
    requires from <= |b|
    ensures r == if !Accepted(typ) then None else Fields(b, from, |b|, Blank())
  {
    hide Dehead, Field;
    if !Accepted(typ) {
      return None;
    }
    var at, p := from, Blank();
    var h := Dehead(b, at, |b|);
    while h.ok
      invariant from <= at <= |b| && h == Dehead(b, at, |b|)
      invariant Fields(b, from, |b|, Blank()) == Fields(b, at, |b|, p)
      decreases |b| - at
    {
      if h.pos + h.len > |b| {
        return None;
      }
      var q := ReadField(b, p, h.typ, h.pos, h.len);
      if q.None? {
        return None;
      }
      p := q.value;
      at := h.pos + h.len;
      h := Dehead(b, at, |b|);
    }
    r := if h.pos < |b| then None else Some(p);
  }

  // ---------------------------------------------------------------- one block

  /** A block that was written is met again: its header, then its value. */
  lemma BlockBack(b: Bytes, at: nat, end: nat, typ: nat, v: Bytes)
    requires LiesAt(b, at, Block(typ, v)) && at + |Block(typ, v)| <= end <= |b|
    requires typ < TWO32 && |v| < TWO32
    ensures var pos := at + |Block(typ, v)| - |v|;
            Dehead(b, at, end) == Head(true, typ, |v|, pos) && LiesAt(b, pos, v) && pos > at
    ensures Sane(Dehead(b, at, end), end)
  {
    hide VarInt, ReadVar;
    LiesApart(b, at, TypeLength(typ, |v|), v);
    LiesApart(b, at, VarInt(typ), VarInt(|v|));
    assert FieldLen(typ) == |VarInt(typ)| && FieldLen(|v|) == |VarInt(|v|)|;
    ReadVarInt(b, at, end, typ);
    ReadVarInt(b, at + |VarInt(typ)|, end, |v|);
  }

  lemma FieldStep(b: Bytes, at: nat, end: nat, p: Pkt, typ: nat, v: Bytes)
    requires LiesAt(b, at, Block(typ, v)) && at + |Block(typ, v)| <= end <= |b|
    requires typ < TWO32 && |v| < TWO32
    ensures var pos := at + |Block(typ, v)| - |v|;
            var p' := Field(b, p, typ, pos, |v|);
            && LiesAt(b, pos, v)
            && Fields(b, at, end, p) == if p'.None? then None else Fields(b, at + |Block(typ, v)|, end, p'.value)
  {
    hide Dehead, Field, Block;
    BlockBack(b, at, end, typ, v);
  }

  lemma NonNegBack(b: Bytes, at: nat, v: U64)
    requires LiesAt(b, at, NonNeg(v))
    ensures ReadNum(b, at, |NonNeg(v)|) == v && |NonNeg(v)| <= 8
  {
    hide ReadNum;
    DigitsEnough(v);
    ReadBigEndian(b, at, v, Padded(Digits(v)));
  }

  lemma DigitsEnough(v: U64)
    ensures v < Power(Padded(Digits(v))) && Padded(Digits(v)) <= 8
  {
    PowerEight();
    var n := Digits(v);
    if v != 0 {
      WidthEnough(v);
    }
    PowerGrows(n, Padded(n));
  }

  lemma {:induction false} PowerGrows(n: nat, m: nat)
    requires n <= m
    ensures Power(n) <= Power(m)
  {
    if n < m {
      PowerGrows(n, m - 1);
    }
  }

  /** Numbers are to take 1, 2, 4 or 8 bytes, as few as will do. They do, unless they need 5 or 6 bytes; those
      take 7. */
  lemma PaddedWellIff(v: U64)
    ensures |NonNeg(v)| ==
            if v < 0x100 then 1
            else if v < 0x1_0000 then 2
            else if v < 0x1_0000_0000 then 4
            else if v < 0x1_0000_0000_0000 then 7
            else 8
  {
    hide BigEndian;
    PowerEight();
    assert Power(1) == 0x100 && Power(5) == 256 * Power(4) && Power(6) == 256 * Power(5);
    if v != 0 {
      var n := Width(v);
      WidthEnough(v);
      if v < 0x1_0000 {
        WidthFits(v, 2);
      } else if v < TWO32 {
        WidthFits(v, 4);
        PowerGrows(n, if n <= 2 then 2 else n);
      } else if v < Power(6) {
        WidthFits(v, 6);
        PowerGrows(n, if n <= 4 then 4 else n);
      } else {
        PowerGrows(n, if n <= 6 then 6 else n);
      }
    }
  }

  lemma MarkedBack(b: Bytes, at: nat, v: U64)
    requires LiesAt(b, at, Marked(v))
    ensures var n := |Marked(v)|;
            1 < n <= 9 && b[at] == MARKER_SEGMENT && ReadNum(b, at + 1, n - 1) == v
  {
    hide NonNeg, ReadNum;
    LiesApart(b, at, [MARKER_SEGMENT], NonNeg(v));
    assert b[at] == b[at..at + 1][0];
    NonNegBack(b, at + 1, v);
    NonNegSize(v);
  }

  lemma NonNegSize(v: U64)
    ensures 1 <= |NonNeg(v)| <= 8
  {
    DigitsEnough(v);
  }

  // ---------------------------------------------------------------- the name

  predicate IsMarked(c: Bytes) {
    c != [] && c[0] == MARKER_SEGMENT
  }

  /** The number in a component that starts with the marker. */
  function Number(c: Bytes): U64
    requires IsMarked(c)
  {
    ReadNum(c, 1, |c| - 1)
  }

  /** What is read of the components `ds`, after `cs`. */
  function Absorb(cs: seq<Bytes>, chunk: Option<U32>, ds: seq<Bytes>): Option<(seq<Bytes>, Option<U32>)>
    decreases |ds|
  {
    if ds == [] then Some((cs, chunk))
    else if |cs| >= MAX_NAME_COMP then Absorb(cs, chunk, ds[1..])
    else if !IsMarked(ds[0]) then Absorb(cs + [ds[0]], chunk, ds[1..])
    else if Number(ds[0]) > UINT32_MAX then None
    else Absorb(cs + [ds[0]], Some(Number(ds[0])), ds[1..])
  }

  /** What is read of a name. */
  function NameRead(name: NdnName): Option<(seq<Bytes>, Option<U32>)> {
    Absorb([], None, Travelling(name))
  }

  lemma {:induction false} ReadNumMoved(b: Bytes, at: nat, c: Bytes, from: nat, n: nat)
    requires LiesAt(b, at, c) && from + n <= |c|
    ensures ReadNum(b, at + from, n) == ReadNum(c, from, n)
  {
    if n > 0 {
      ReadNumMoved(b, at, c, from, n - 1);
      SliceAt(b, at, c);
    }
  }

  /** One component is read. */
  lemma NameStep(b: Bytes, at: nat, end: nat, cs: seq<Bytes>, chunk: Option<U32>, d: Bytes)
    requires LiesAt(b, at, Block(NAME_COMPONENT, d)) && at + |Block(NAME_COMPONENT, d)| <= end <= |b|
    requires |d| < TWO32
    requires d == [] ==> at + |Block(NAME_COMPONENT, d)| < |b| && b[at + |Block(NAME_COMPONENT, d)|] != MARKER_SEGMENT
    ensures var next := at + |Block(NAME_COMPONENT, d)|;
            NameFrom(b, at, end, cs, chunk) ==
              if |cs| >= MAX_NAME_COMP then NameFrom(b, next, end, cs, chunk)
              else if !IsMarked(d) then NameFrom(b, next, end, cs + [d], chunk)
              else if Number(d) > UINT32_MAX then None
              else NameFrom(b, next, end, cs + [d], Some(Number(d)))
  {
    hide Block, Dehead, ReadNum;
    BlockBack(b, at, end, NAME_COMPONENT, d);
    var pos := at + |Block(NAME_COMPONENT, d)| - |d|;
    assert b[pos..pos + |d|] == d;
    if d != [] {
      SliceAt(b, pos, d);
      assert d[0] == b[pos + 0];
      ReadNumMoved(b, pos, d, 1, |d| - 1);
    }
  }

  lemma {:induction false} NameBack(b: Bytes, at: nat, end: nat, cs: seq<Bytes>, chunk: Option<U32>, ds: seq<Bytes>)
    requires LiesAt(b, at, Components(ds)) && end == at + |Components(ds)| < |b| && b[end] != MARKER_SEGMENT
    requires forall d :: d in ds ==> |d| < TWO32
    ensures NameFrom(b, at, end, cs, chunk) == Absorb(cs, chunk, ds)
    decreases |ds|
  {
    hide Block, NameFrom, LiesAt, IsMarked, Number;
    if ds == [] {
      NameDone(b, at, cs, chunk);
    } else {
      var d, rest := ds[0], ds[1..];
      LiesApart(b, at, Block(NAME_COMPONENT, d), Components(rest));
      var next := at + |Block(NAME_COMPONENT, d)|;
      AfterComponent(b, next, end, rest);
      NameStep(b, at, end, cs, chunk, d);
      assert forall e :: e in rest ==> e in ds;
      if |cs| >= MAX_NAME_COMP {
        NameBack(b, next, end, cs, chunk, rest);
      } else if !IsMarked(d) {
        NameBack(b, next, end, cs + [d], chunk, rest);
      } else if Number(d) <= UINT32_MAX {
        NameBack(b, next, end, cs + [d], Some(Number(d)), rest);
      }
    }
  }

  lemma NameDone(b: Bytes, at: nat, cs: seq<Bytes>, chunk: Option<U32>)
    requires at <= |b|
    ensures NameFrom(b, at, at, cs, chunk) == Some((cs, chunk))
  {
  }

  /** What follows a component is never the marker. */
  lemma AfterComponent(b: Bytes, at: nat, end: nat, ds: seq<Bytes>)
    requires LiesAt(b, at, Components(ds)) && end == at + |Components(ds)| < |b| && b[end] != MARKER_SEGMENT
    ensures b[at] != MARKER_SEGMENT
  {
    if ds != [] {
      SliceAt(b, at, Components(ds));
      assert Components(ds)[0] == NAME_COMPONENT;
    }
  }

  /** The number that is in force after `ds`. */
  function LastNumber(chunk: Option<U64>, ds: seq<Bytes>): Option<U64>
    decreases |ds|
  {
    if ds == [] then chunk else LastNumber(if IsMarked(ds[0]) then Some(Number(ds[0])) else chunk, ds[1..])
  }

  predicate Small(c: Bytes) {
    IsMarked(c) ==> Number(c) <= UINT32_MAX
  }

  lemma {:induction false} AbsorbAll(cs: seq<Bytes>, chunk: Option<U32>, ds: seq<Bytes>)
    requires |cs| + |ds| <= MAX_NAME_COMP
    ensures var r := Absorb(cs, chunk, ds);
            && (r.Some? <==> forall d :: d in ds ==> Small(d))
            && (r.Some? ==> r.value.0 == cs + ds && r.value.1 == LastNumber(chunk, ds))
    decreases |ds|
  {
    if ds != [] {
      var rest := ds[1..];
      assert ds == [ds[0]] + rest;
      AppendAssoc(cs, [ds[0]], rest);
      if !IsMarked(ds[0]) {
        AbsorbAll(cs + [ds[0]], chunk, rest);
      } else if Number(ds[0]) <= UINT32_MAX {
        AbsorbAll(cs + [ds[0]], Some(Number(ds[0])), rest);
      } else {
        assert !Small(ds[0]);
      }
    }
  }

  lemma {:induction false} AbsorbCapped(cs: seq<Bytes>, chunk: Option<U32>, ds: seq<Bytes>)
    requires |cs| <= MAX_NAME_COMP
    ensures var r := Absorb(cs, chunk, ds); r.Some? ==> |r.value.0| <= MAX_NAME_COMP
    decreases |ds|
  {
    if ds == [] {
    } else if |cs| >= MAX_NAME_COMP {
      AbsorbCapped(cs, chunk, ds[1..]);
    } else if !IsMarked(ds[0]) {
      AbsorbCapped(cs + [ds[0]], chunk, ds[1..]);
    } else if Number(ds[0]) <= UINT32_MAX {
      AbsorbCapped(cs + [ds[0]], Some(Number(ds[0])), ds[1..]);
    }
  }

  lemma {:induction false} LastNumberOf(chunk: Option<U64>, ds: seq<Bytes>, last: Bytes)
    requires IsMarked(last)
    ensures LastNumber(chunk, ds + [last]) == Some(Number(last))
    decreases |ds|
  {
    if ds == [] {
      assert ds + [last] == [last] && [last][1..] == [];
    } else {
      assert (ds + [last])[1..] == ds[1..] + [last];
      LastNumberOf(if IsMarked(ds[0]) then Some(Number(ds[0])) else chunk, ds[1..], last);
    }
  }

  lemma {:induction false} LastNumberNone(chunk: Option<U64>, ds: seq<Bytes>)
    ensures LastNumber(chunk, ds).None? <==> chunk.None? && forall d :: d in ds ==> !IsMarked(d)
    decreases |ds|
  {
    if ds != [] {
      assert ds == [ds[0]] + ds[1..];
      LastNumberNone(if IsMarked(ds[0]) then Some(Number(ds[0])) else chunk, ds[1..]);
    }
  }

  lemma MarkedNumber(v: U64)
    ensures IsMarked(Marked(v)) && Number(Marked(v)) == v
  {
    hide NonNeg, ReadNum;
    var c := Marked(v);
    assert c[0..|c|] == c;
    MarkedBack(c, 0, v);
  }

  /** A name comes back, chunk number and all, exactly when it has at most 64 components as it travels and
      none of its own components passes for a chunk number: none starts with the marker, or else there is a
      chunk number behind to override it and what is overridden fits 32 bits. */
  lemma NameSurvivesIff(name: NdnName)
    ensures NameRead(name) == Some((Travelling(name), name.chunk)) <==>
              && |Travelling(name)| <= 64
              && (forall c :: c in name.comps ==> Small(c))
              && (name.chunk.None? ==> forall c :: c in name.comps ==> !IsMarked(c))
  {
    hide Marked, Number, Absorb;
    var ds := Travelling(name);
    if |ds| > MAX_NAME_COMP {
      AbsorbCapped([], None, ds);
    } else {
      AbsorbAll([], None, ds);
      assert [] + ds == ds;
      LastNumberNone(None, ds);
      if name.chunk.Some? {
        MarkedNumber(name.chunk.value);
        LastNumberOf(None, name.comps, Marked(name.chunk.value));
      } else {
        assert ds == name.comps;
      }
    }
  }
}
