/**
 Reading ccnb packets with the mutually recursive reader, and what is read of packets that were written.
 */
module CcnbRead {
  import opened Base
  import opened Tlv
  import opened Ccnb

  const MAX_NAME_COMP: nat := 64
  const MAX_HEADER: nat := 8             // bytes in a machine word
  const UINT16_MAX: nat := 0xffff
  const UINT32_MAX: nat := 0xffffffff

  datatype Head = Head(num: nat, typ: nat, pos: nat)

  predicate Ends(h: Head) {
    h.num == 0 && h.typ == 0
  }

  /** The header at `at`, `i` bytes of it read as `val`. */
  function DeheadFrom(b: Bytes, at: nat, end: nat, i: nat, val: nat): (r: Option<Head>)
    requires at + i <= end <= |b|
    ensures r.Some? ==> at < r.value.pos <= end
    decreases end - at - i
  {
    if i >= MAX_HEADER || at + i >= end then None
    else
      var c := b[at + i];
      if c >= 128 then Some(Head(val * 16 + (c / 8) % 16, c % 8, at + i + 1))
      else DeheadFrom(b, at, end, i + 1, val * 128 + c)
  }

  function Dehead(b: Bytes, at: nat, end: nat): (r: Option<Head>)
    requires at <= end <= |b|
    ensures r.Some? ==> at < r.value.pos <= end
  {
    if at < end && b[at] == 0 then Some(Head(0, 0, at + 1)) else DeheadFrom(b, at, end, 0, 0)
  }

  /** Where a value was found: its place and its length. */
  type Place = Option<(nat, nat)>

  /** Skip to the end of a field; the last blob on the way is its value. */
  function Hunt(b: Bytes, at: nat, end: nat, val: Place): (r: Option<(nat, Place)>)
    requires at <= end <= |b| && (val.Some? ==> val.value.0 + val.value.1 <= |b|)
    ensures r.Some? ==> at <= r.value.0 <= end && (r.value.1.Some? ==> r.value.1.value.0 + r.value.1.value.1 <= |b|)
    decreases end - at, 0
  {
    var h := Dehead(b, at, end);
    if h.None? then None
    else if Ends(h.value) then Some((h.value.pos, val))
    else
      var c := Consume(b, h.value.typ, h.value.num, h.value.pos, end, val);
      if c.None? then None else Hunt(b, c.value.0, end, c.value.1)
  }

  /** Skip what the header announces. */
  function Consume(b: Bytes, typ: nat, num: nat, at: nat, end: nat, val: Place): (r: Option<(nat, Place)>)
    requires at <= end <= |b| && (val.Some? ==> val.value.0 + val.value.1 <= |b|)
    ensures r.Some? ==> at <= r.value.0 <= end && (r.value.1.Some? ==> r.value.1.value.0 + r.value.1.value.1 <= |b|)
    decreases end - at, 1
  {
    if typ == TT_BLOB || typ == TT_UDATA then
      if num > end - at then None else Some((at + num, Some((at, num))))
    else if typ == TT_DTAG || typ == TT_DATTR then Hunt(b, at, end, val)
    else None
  }

  /** The components of a name up to its end; the first 64 are kept. */
  function NameFrom(b: Bytes, at: nat, end: nat, cs: seq<Bytes>): (r: Option<(seq<Bytes>, nat)>)
    requires at <= end <= |b|
    ensures r.Some? ==> at <= r.value.1 <= end
    decreases end - at
  {
    var h := Dehead(b, at, end);
    if h.None? then None
    else if Ends(h.value) then Some((cs, h.value.pos))
    else if h.value.typ == TT_DTAG && h.value.num == DTAG_COMPONENT && |cs| < MAX_NAME_COMP then
      var v := Hunt(b, h.value.pos, end, None);
      if v.None? || v.value.1.None? then None else
        var (from, len) := v.value.1.value;
        NameFrom(b, v.value.0, end, cs + [b[from..from + len]])
    else
      var c := Consume(b, h.value.typ, h.value.num, h.value.pos, end, None);
      if c.None? then None else NameFrom(b, c.value.0, end, cs)
  }

  datatype Pkt = Pkt(comps: seq<Bytes>, content: Option<Bytes>, nonce: Option<Bytes>, publisher: Option<Bytes>,
                     scope: int, answerOrigKind: nat, minSuffix: nat, maxSuffix: nat)

  function Blank(): Pkt {
    Pkt([], None, None, None, 3, 3, 0, MAX_NAME_COMP)
  }

  predicate IsDigit(c: Byte) {
    48 <= c <= 57
  }

  /** A decimal number, in 64 bits. */
  function Decimal(v: Bytes): Option<U64> {
    if v == [] then Some(0) else
      var front := Decimal(v[..|v| - 1]);
      var c := v[|v| - 1];
      if front.None? || !IsDigit(c) then None else Some((10 * front.value + c - 48) % TWO64)
  }

  /** A field whose value is a blob. */
  function Small(p: Pkt, num: nat, v: Bytes): Option<Pkt> {
    if num == DTAG_SCOPE then
      Some(if |v| == 1 then p.(scope := if 48 <= v[0] < 51 then v[0] - 48 else -1) else p)
    else if num == DTAG_ANSWER_ORIG_KIND then
      if Decimal(v).None? || Decimal(v).value > UINT16_MAX then None else Some(p.(answerOrigKind := Decimal(v).value))
    else if num == DTAG_MIN_SUFFIX then
      if Decimal(v).None? || Decimal(v).value > UINT32_MAX then None else Some(p.(minSuffix := Decimal(v).value))
    else if num == DTAG_MAX_SUFFIX then
      if Decimal(v).None? || Decimal(v).value > UINT32_MAX then None else Some(p.(maxSuffix := Decimal(v).value))
    else if num == DTAG_NONCE then Some(if p.nonce.None? then p.(nonce := Some(v)) else p)
    else Some(if p.publisher.None? then p.(publisher := Some(v)) else p)
  }

  predicate IsSmall(num: nat) {
    num == DTAG_SCOPE || num == DTAG_ANSWER_ORIG_KIND || num == DTAG_MIN_SUFFIX || num == DTAG_MAX_SUFFIX
    || num == DTAG_NONCE || num == DTAG_PUBLISHER
  }

  /** The field with this tag, and where it ends. */
  function Field(b: Bytes, num: nat, at: nat, end: nat, p: Pkt): (r: Option<(Pkt, nat)>)
    requires at <= end <= |b|
    ensures r.Some? ==> at <= r.value.1 <= end
  {
    if num == DTAG_NAME then
      var n := NameFrom(b, at, end, p.comps);
      if n.None? then None else Some((p.(comps := n.value.0), n.value.1))
    else
      var v := Hunt(b, at, end, None);
      if v.None? then None
      else if num == DTAG_CONTENT then
        if v.value.1.None? then Some((p, v.value.0)) else
          var (from, len) := v.value.1.value;
          Some((p.(content := Some(b[from..from + len])), v.value.0))
      else if IsSmall(num) then
        if v.value.1.None? then None else
          var (from, len) := v.value.1.value;
          var q := Small(p, num, b[from..from + len]);
          if q.None? then None else Some((q.value, v.value.0))
      else Some((p, v.value.0))
  }

  /** The fields of a packet, up to its end or to a header that cannot be read. */
  function Fields(b: Bytes, at: nat, end: nat, p: Pkt): (r: Option<(Pkt, nat)>)
    requires at <= end <= |b|
    ensures r.Some? ==> at <= r.value.1 <= end
    decreases end - at
  {
    var h := Dehead(b, at, end);
    if h.None? then Some((p, at))
    else if Ends(h.value) then Some((p, h.value.pos))
    else if h.value.typ == TT_DTAG then
      var f := Field(b, h.value.num, h.value.pos, end, p);
      if f.None? then None else Fields(b, f.value.1, end, f.value.0)
    else
      var c := Consume(b, h.value.typ, h.value.num, h.value.pos, end, None);
      if c.None? then None else Fields(b, c.value.0, end, p)
  }

  /** A packet: its tag, then its fields; the result says where it ends. */
  function Parse(b: Bytes): Option<(nat, Pkt, nat)> {
    var h := Dehead(b, 0, |b|);
    if h.None? || h.value.typ != TT_DTAG then None else
      var f := Fields(b, h.value.pos, |b|, Blank());
      if f.None? then None else Some((h.value.num, f.value.0, f.value.1))
  }

  // ---------------------------------------------------------------- the code that reads

  method ReadHead(b: Bytes, at: nat, end: nat) returns (r: Option<Head>)
    requires at <= end <= |b|
    ensures r == Dehead(b, at, end)
  {
    if at < end && b[at] == 0 {
      return Some(Head(0, 0, at + 1));
    }
    var val: nat, i: nat := 0, 0;
    while i < MAX_HEADER && i < end - at
      invariant 0 <= i && at + i <= end
      invariant DeheadFrom(b, at, end, 0, 0) == DeheadFrom(b, at, end, i, val)
    {
      var c := b[at + i];
      if c >= 128 {
        return Some(Head(val * 16 + (c / 8) % 16, c % 8, at + i + 1));
      }
      val := val * 128 + c;
      i := i + 1;
    }
    r := None;
  }

  method HuntForEnd(b: Bytes, from: nat, end: nat, val: Place) returns (r: Option<(nat, Place)>)
    requires from <= end <= |b| && (val.Some? ==> val.value.0 + val.value.1 <= |b|)
    ensures r == Hunt(b, from, end, val)
    decreases end - from, 0
  {
    hide Dehead, Consume;
    var at: nat, v: Place := from, val;
    var h := ReadHead(b, at, end);
    while h.Some?
      invariant from <= at <= end && (v.Some? ==> v.value.0 + v.value.1 <= |b|)
      invariant h == Dehead(b, at, end) && Hunt(b, from, end, val) == Hunt(b, at, end, v)
      decreases end - at
    {
      if Ends(h.value) {
        return Some((h.value.pos, v));
      }
      var c := ConsumeField(b, h.value.typ, h.value.num, h.value.pos, end, v);
      if c.None? {
        return None;
      }
      at, v := c.value.0, c.value.1;
      h := ReadHead(b, at, end);
    }
    r := None;
  }

  method ConsumeField(b: Bytes, typ: nat, num: nat, at: nat, end: nat, val: Place) returns (r: Option<(nat, Place)>)
    requires at <= end <= |b| && (val.Some? ==> val.value.0 + val.value.1 <= |b|)
    ensures r == Consume(b, typ, num, at, end, val)
    decreases end - at, 1
  {
    if typ == TT_BLOB || typ == TT_UDATA {
      return if num > end - at then None else Some((at + num, Some((at, num))));
    }
    if typ == TT_DTAG || typ == TT_DATTR {
      r := HuntForEnd(b, at, end, val);
      return;
    }
    r := None;
  }

  method ReadName(b: Bytes, from: nat, end: nat, cs0: seq<Bytes>) returns (r: Option<(seq<Bytes>, nat)>)
    requires from <= end <= |b|
    ensures r == NameFrom(b, from, end, cs0)
  {
    hide Dehead, Hunt, Consume;
    var at, cs := from, cs0;
    while true
      invariant from <= at <= end && NameFrom(b, from, end, cs0) == NameFrom(b, at, end, cs)
      decreases end - at
    {
      var h := ReadHead(b, at, end);
      if h.None? {
        return None;
      }
      if Ends(h.value) {
        return Some((cs, h.value.pos));
      }
      if h.value.typ == TT_DTAG && h.value.num == DTAG_COMPONENT && |cs| < MAX_NAME_COMP {
        var v := HuntForEnd(b, h.value.pos, end, None);
        if v.None? || v.value.1.None? {
          return None;
        }
        var place := v.value.1.value;
        cs := cs + [b[place.0..place.0 + place.1]];
        at := v.value.0;
      } else {
        var c := ConsumeField(b, h.value.typ, h.value.num, h.value.pos, end, None);
        if c.None? {
          return None;
        }
        at := c.value.0;
      }
    }
  }

  method Data2Uint(v: Bytes) returns (r: Option<U64>)
    ensures r == Decimal(v)
  {
    var val: U64, i := 0, 0;
    while i < |v|
      invariant 0 <= i <= |v| && Decimal(v[..i]) == Some(val)
    {
      assert v[..i + 1][..i] == v[..i];
      if !IsDigit(v[i]) {
        NotDecimal(v, i + 1);
        return None;
      }
      val := (10 * val + v[i] - 48) % TWO64;
      i := i + 1;
    }
    assert v[..|v|] == v;
    r := Some(val);
  }

  lemma {:induction false} NotDecimal(v: Bytes, k: nat)
    requires k <= |v| && Decimal(v[..k]) == None
    ensures Decimal(v) == None
    decreases |v|
  {
    if k < |v| {
      assert v[..|v| - 1][..k] == v[..k];
      NotDecimal(v[..|v| - 1], k);
    } else {
      assert v[..k] == v;
    }
  }

  method SetSmall(p: Pkt, num: nat, v: Bytes) returns (r: Option<Pkt>)
    ensures r == Small(p, num, v)
  {
    if num == DTAG_SCOPE {
      return Some(if |v| == 1 then p.(scope := if 48 <= v[0] < 51 then v[0] - 48 else -1) else p);
    } else if num == DTAG_NONCE {
      return Some(if p.nonce.None? then p.(nonce := Some(v)) else p);
    } else if num != DTAG_ANSWER_ORIG_KIND && num != DTAG_MIN_SUFFIX && num != DTAG_MAX_SUFFIX {
      return Some(if p.publisher.None? then p.(publisher := Some(v)) else p);
    }
    var n := Data2Uint(v);
    if n.None? || n.value > (if num == DTAG_ANSWER_ORIG_KIND then UINT16_MAX else UINT32_MAX) {
      return None;
    }
    r := Some(if num == DTAG_ANSWER_ORIG_KIND then p.(answerOrigKind := n.value)
              else if num == DTAG_MIN_SUFFIX then p.(minSuffix := n.value)
              else p.(maxSuffix := n.value));
  }

  method ReadField(b: Bytes, num: nat, at: nat, end: nat, p: Pkt) returns (r: Option<(Pkt, nat)>)
    requires at <= end <= |b|
    ensures r == Field(b, num, at, end, p)
  {
    hide Hunt, NameFrom, Small;
    if num == DTAG_NAME {
      var n := ReadName(b, at, end, p.comps);
      return if n.None? then None else Some((p.(comps := n.value.0), n.value.1));
    }
    var v := HuntForEnd(b, at, end, None);
    if v.None? {
      return None;
    }
    var q := p;
    if num == DTAG_CONTENT {
      if v.value.1.Some? {
        var place := v.value.1.value;
        q := p.(content := Some(b[place.0..place.0 + place.1]));
      }
    } else if IsSmall(num) {
      if v.value.1.None? {
        return None;
      }
      var place := v.value.1.value;
      var s := SetSmall(p, num, b[place.0..place.0 + place.1]);
      if s.None? {
        return None;
      }
      q := s.value;
    }
    r := Some((q, v.value.0));
  }

  /** Reads field after field. */
  method Bytes2Pkt(b: Bytes, from: nat) returns (r: Option<(Pkt, nat)>)
    requires from <= |b|
    ensures r == Fields(b, from, |b|, Blank())
  {
    hide Dehead, Field, Consume;
    var at, p := from, Blank();
    var h := ReadHead(b, at, |b|);
    while h.Some?
      invariant from <= at <= |b| && h == Dehead(b, at, |b|)
      invariant Fields(b, from, |b|, Blank()) == Fields(b, at, |b|, p)
      decreases |b| - at
    {
      if Ends(h.value) {
        return Some((p, h.value.pos));
      }
      if h.value.typ == TT_DTAG {
        var f := ReadField(b, h.value.num, h.value.pos, |b|, p);
        if f.None? {
          return None;
        }
        p, at := f.value.0, f.value.1;
      } else {
        var c := ConsumeField(b, h.value.typ, h.value.num, h.value.pos, |b|, None);
        if c.None? {
          return None;
        }
        at := c.value.0;
      }
      h := ReadHead(b, at, |b|);
    }
    r := Some((p, at));
  }

  // ---------------------------------------------------------------- headers

  function Power7(k: nat): (p: nat)
    ensures p > 0
  {
    if k == 0 then 1 else 128 * Power7(k - 1)
  }

  lemma {:induction false} SevensLength(n: nat, k: nat)
    ensures |Sevens(n)| <= k <==> n < Power7(k)
  {
    if n > 0 && k > 0 {
      SevensLength(n / 128, k - 1);
    }
  }

  lemma SevenSevens()
    ensures Power7(7) * 16 == TWO53
  {
    assert Power7(3) == 0x200000;
    assert Power7(5) == 0x8_0000_0000;
  }

  lemma {:induction false} SevensStart(n: nat)
    requires n > 0
    ensures Sevens(n) != [] && 0 < Sevens(n)[0] < 128
  {
    if n >= 128 {
      SevensStart(n / 128);
    } else {
      assert Sevens(0) == [];
    }
  }

  lemma Recomposed(n: nat)
    ensures n / 128 * 128 + n % 128 == n
  {
  }

  /** Reading the groups of seven bits. */
  lemma {:induction false} SevensBack(b: Bytes, at: nat, end: nat, n: nat)
    requires LiesAt(b, at, Sevens(n)) && at + |Sevens(n)| <= end <= |b|
    ensures DeheadFrom(b, at, end, 0, 0) ==
            if |Sevens(n)| <= MAX_HEADER then DeheadFrom(b, at, end, |Sevens(n)|, n) else None
  {
    if n > 0 {
      var front := Sevens(n / 128);
      assert Sevens(n) == front + [n % 128];
      LiesApart(b, at, front, [n % 128]);
      SevensBack(b, at, end, n / 128);
      OneAt(b, at + |front|, n % 128);
      Recomposed(n);
    }
  }

  lemma OneAt(b: Bytes, at: nat, c: Byte)
    requires LiesAt(b, at, [c])
    ensures at < |b| && b[at] == c
  {
    assert b[at..at + 1][0] == c;
  }

  lemma MarkBack(num: nat, tt: nat)
    requires tt < 8
    ensures Mark(num, tt) >= 128 && Mark(num, tt) / 8 % 16 == num % 16 && Mark(num, tt) % 8 == tt
    ensures num / 16 * 16 + num % 16 == num
  {
  }

  /** Every header is read back, of any type, exactly for numbers below 2^53. */
  lemma HeaderBack(b: Bytes, at: nat, end: nat, num: nat, tt: nat)
    requires tt < 8 && LiesAt(b, at, Header(num, tt)) && at + |Header(num, tt)| <= end <= |b|
    ensures Dehead(b, at, end) == if num < TWO53 then Some(Head(num, tt, at + |Header(num, tt)|)) else None
  {
    hide Mark, Sevens;
    var n := num / 16;
    var s, m := Sevens(n), Mark(num, tt);
    LiesApart(b, at, s, [m]);
    MarkBack(num, tt);
    OneAt(b, at + |s|, m);
    SevensLength(n, 7);
    SevenSevens();
    SevensBack(b, at, end, n);
    if n > 0 {
      SevensStart(n);
      LiesStart(b, at, s);
    } else {
      SevensLength(0, 0);
    }
  }

  lemma LiesStart(b: Bytes, at: nat, s: Bytes)
    requires LiesAt(b, at, s) && s != []
    ensures at < |b| && b[at] == s[0]
  {
    assert b[at..at + |s|][0] == s[0];
  }

  // ---------------------------------------------------------------- what was written

  lemma ZeroEnds(b: Bytes, at: nat, end: nat)
    requires LiesAt(b, at, [0]) && at + 1 <= end <= |b|
    ensures Dehead(b, at, end) == Some(Head(0, 0, at + 1))
  {
    OneAt(b, at, 0);
  }

  /** A blob and the end of its field. */
  lemma BlobBack(b: Bytes, at: nat, end: nat, data: Bytes)
    requires LiesAt(b, at, Blob(data) + [0]) && at + |Blob(data)| + 1 <= end <= |b| && |data| < TWO53
    ensures var from := at + |Blob(data)| - |data|;
            && Hunt(b, at, end, None) == Some((at + |Blob(data)| + 1, Some((from, |data|))))
            && LiesAt(b, from, data)
  {
    hide Dehead, Header, LiesAt;
    var h := Header(|data|, TT_BLOB);
    LiesApart(b, at, Blob(data), [0]);
    LiesApart(b, at, h, data);
    HeaderBack(b, at, end, |data|, TT_BLOB);
    var next := at + |Blob(data)|;
    ZeroEnds(b, next, end);
    var v: Place := Some((at + |h|, |data|));
    assert Consume(b, TT_BLOB, |data|, at + |h|, end, None) == Some((next, v));
    EndHere(b, next, end, v);
  }

  lemma EndHere(b: Bytes, at: nat, end: nat, val: Place)
    requires at <= end <= |b| && (val.Some? ==> val.value.0 + val.value.1 <= |b|)
    requires Dehead(b, at, end) == Some(Head(0, 0, at + 1))
    ensures Hunt(b, at, end, val) == Some((at + 1, val))
  {
  }

  /** The part of a list that the reader keeps, when it has `n` components already. */
  function Kept(cs: seq<Bytes>, n: nat): seq<Bytes> {
    if n >= 64 then []
    else if |cs| <= 64 - n then cs
    else cs[..64 - n]
  }

  lemma KeptNone(cs: seq<Bytes>, n: nat)
    requires cs == [] || n >= MAX_NAME_COMP
    ensures Kept(cs, n) == []
  {
  }

  lemma KeptCons(cs: seq<Bytes>, n: nat)
    requires cs != []
    ensures Kept(cs, n) == if n >= MAX_NAME_COMP then [] else [cs[0]] + Kept(cs[1..], n + 1)
  {
    if n < MAX_NAME_COMP {
      assert cs == [cs[0]] + cs[1..];
      if |cs| > MAX_NAME_COMP - n {
        assert cs[..MAX_NAME_COMP - n] == [cs[0]] + cs[1..][..MAX_NAME_COMP - n - 1];
      }
    }
  }

  /** One component: kept while there is a place for it, skipped otherwise. */
  lemma ComponentBack(b: Bytes, at: nat, end: nat, cs: seq<Bytes>, c: Bytes)
    requires LiesAt(b, at, Component(c)) && at + |Component(c)| <= end <= |b| && |c| < TWO53
    ensures NameFrom(b, at, end, cs) ==
            NameFrom(b, at + |Component(c)|, end, if |cs| < MAX_NAME_COMP then cs + [c] else cs)
  {
    hide Dehead, Header, LiesAt, Hunt;
    LiesApart(b, at, Tag(DTAG_COMPONENT), Blob(c) + [0]);
    HeaderBack(b, at, end, DTAG_COMPONENT, TT_DTAG);
    var pos := at + |Tag(DTAG_COMPONENT)|;
    BlobBack(b, pos, end, c);
    var from := pos + |Blob(c)| - |c|;
    LiesMeans(b, from, c);
  }

  lemma {:induction false} ComponentsBack(b: Bytes, at: nat, end: nat, cs: seq<Bytes>, ds: seq<Bytes>)
    requires LiesAt(b, at, Components(ds)) && at + |Components(ds)| <= end <= |b|
    requires forall d :: d in ds ==> |d| < TWO53
    ensures NameFrom(b, at, end, cs) == NameFrom(b, at + |Components(ds)|, end, cs + Kept(ds, |cs|))
    decreases |ds|
  {
    hide NameFrom, LiesAt, Component, Kept;
    if ds == [] {
      KeptNone(ds, |cs|);
      assert cs + [] == cs;
    } else {
      var d, rest := ds[0], ds[1..];
      LiesApart(b, at, Component(d), Components(rest));
      ComponentBack(b, at, end, cs, d);
      KeptCons(ds, |cs|);
      assert forall e :: e in rest ==> e in ds;
      if |cs| < MAX_NAME_COMP {
        ComponentsBack(b, at + |Component(d)|, end, cs + [d], rest);
        AppendAssoc(cs, [d], Kept(rest, |cs| + 1));
      } else {
        ComponentsBack(b, at + |Component(d)|, end, cs, rest);
        KeptNone(rest, |cs|);
        KeptNone(ds, |cs|);
      }
    }
  }

  predicate Moderate(cs: seq<Bytes>) {
    forall c :: c in cs ==> |c| < TWO53
  }

  lemma NameInside(b: Bytes, at: nat, end: nat, cs0: seq<Bytes>, cs: seq<Bytes>)
    requires LiesAt(b, at, Components(cs) + [0]) && at + |Components(cs)| + 1 <= end <= |b| && Moderate(cs)
    ensures NameFrom(b, at, end, cs0) == Some((cs0 + Kept(cs, |cs0|), at + |Components(cs)| + 1))
  {
    hide Dehead, LiesAt, Components, Kept;
    LiesApart(b, at, Components(cs), [0]);
    ComponentsBack(b, at, end, cs0, cs);
    ZeroEnds(b, at + |Components(cs)|, end);
  }

  /** A name field. The components of several names are one behind the other, 64 at most. */
  lemma NameBack(b: Bytes, at: nat, end: nat, p: Pkt, cs: seq<Bytes>)
    requires LiesAt(b, at, Name(cs)) && at + |Name(cs)| <= end <= |b| && Moderate(cs)
    ensures Fields(b, at, end, p) == Fields(b, at + |Name(cs)|, end, p.(comps := p.comps + Kept(cs, |p.comps|)))
    ensures [] + Kept(cs, 0) == Kept(cs, 0)
  {
    hide Dehead, Header, LiesAt, Components, Kept, NameFrom, Moderate;
    var tag := Tag(DTAG_NAME);
    LiesApart(b, at, tag, Components(cs) + [0]);
    HeaderBack(b, at, end, DTAG_NAME, TT_DTAG);
    NameInside(b, at + |tag|, end, p.comps, cs);
  }

  lemma FieldsEnd(b: Bytes, at: nat, end: nat, p: Pkt)
    requires LiesAt(b, at, [0]) && at + 1 <= end <= |b|
    ensures Fields(b, at, end, p) == Some((p, at + 1))
  {
    ZeroEnds(b, at, end);
  }

  /** A content object comes back, the first 64 components of its name and all of its data, and reading
      stops exactly where it ends, whatever follows. */
  lemma ContentRoundTrip(cs: seq<Bytes>, data: Bytes, tail: Bytes)
    requires Moderate(cs) && |data| < TWO53
    ensures var w := Content(cs, data);
            Parse(w + tail) ==
            Some((DTAG_CONTENT_OBJECT, Blank().(comps := Kept(cs, 0), content := Some(data)), |w|))
  {
    hide Dehead, Header, LiesAt, Name, Hunt, Fields, Kept;
    var w := Content(cs, data);
    var b := w + tail;
    var end := |b|;
    Begins(w, tail);
    var tag := Tag(DTAG_CONTENT_OBJECT);
    LiesApart(b, 0, tag, Name(cs) + (ContentField(data) + [0]));
    HeaderBack(b, 0, end, DTAG_CONTENT_OBJECT, TT_DTAG);
    var at := |tag|;
    LiesApart(b, at, Name(cs), ContentField(data) + [0]);
    NameBack(b, at, end, Blank(), cs);
    var p := Blank().(comps := Kept(cs, 0));
    at := at + |Name(cs)|;
    LiesApart(b, at, ContentField(data), [0]);
    ContentFieldBack(b, at, end, p, data);
    at := at + |ContentField(data)|;
    FieldsEnd(b, at, end, p.(content := Some(data)));
  }

  lemma Begins(w: Bytes, tail: Bytes)
    ensures LiesAt(w + tail, 0, w)
  {
    assert (w + tail)[0..|w|] == w;
  }

  lemma ContentFieldBack(b: Bytes, at: nat, end: nat, p: Pkt, data: Bytes)
    requires LiesAt(b, at, ContentField(data)) && at + |ContentField(data)| <= end <= |b| && |data| < TWO53
    ensures Fields(b, at, end, p) == Fields(b, at + |ContentField(data)|, end, p.(content := Some(data)))
  {
    hide Dehead, Header, LiesAt, Hunt;
    LiesApart(b, at, Tag(DTAG_CONTENT), Blob(data) + [0]);
    HeaderBack(b, at, end, DTAG_CONTENT, TT_DTAG);
    var pos := at + |Tag(DTAG_CONTENT)|;
    BlobBack(b, pos, end, data);
    LiesMeans(b, pos + |Blob(data)| - |data|, data);
  }

  /** The nonce field takes the zero of the Interest for its own end. */
  lemma NonceFieldBack(b: Bytes, at: nat, end: nat, p: Pkt, nonce: Bytes)
    requires var w := Tag(DTAG_NONCE) + (Blob(nonce) + [0]); LiesAt(b, at, w) && at + |w| <= end <= |b|
    requires |nonce| < TWO53 && p.nonce.None?
    ensures Fields(b, at, end, p) ==
            Fields(b, at + |Tag(DTAG_NONCE)| + |Blob(nonce)| + 1, end, p.(nonce := Some(nonce)))
  {
    hide Dehead, Header, LiesAt, Hunt;
    LiesApart(b, at, Tag(DTAG_NONCE), Blob(nonce) + [0]);
    HeaderBack(b, at, end, DTAG_NONCE, TT_DTAG);
    var pos := at + |Tag(DTAG_NONCE)|;
    BlobBack(b, pos, end, nonce);
    LiesMeans(b, pos + |Blob(nonce)| - |nonce|, nonce);
  }

  /** An Interest without a nonce comes back and is read to its end, whatever follows. With a nonce it is
      not closed: what follows is read as more of it. */
  lemma InterestRoundTrip(cs: seq<Bytes>, nonce: Option<Bytes>, tail: Bytes)
    requires Moderate(cs) && (nonce.Some? ==> |nonce.value| == 4)
    ensures var w := Interest(cs, nonce);
            var p := Blank().(comps := Kept(cs, 0), nonce := nonce);
            if nonce.None? then Parse(w + tail) == Some((DTAG_INTEREST, p, |w|)) else
              var more := Fields(w + tail, |w|, |w + tail|, p);
              Parse(w + tail) == if more.None? then None else Some((DTAG_INTEREST, more.value.0, more.value.1))
  {
    hide Dehead, Header, LiesAt, Name, Hunt, Fields, Blob, Kept;
    var w := Interest(cs, nonce);
    var b := w + tail;
    var end := |b|;
    Begins(w, tail);
    var tag := Tag(DTAG_INTEREST);
    LiesApart(b, 0, tag, Name(cs) + (NonceField(nonce) + [0]));
    HeaderBack(b, 0, end, DTAG_INTEREST, TT_DTAG);
    var at := |tag|;
    LiesApart(b, at, Name(cs), NonceField(nonce) + [0]);
    NameBack(b, at, end, Blank(), cs);
    var p := Blank().(comps := Kept(cs, 0));
    at := at + |Name(cs)|;
    if nonce.None? {
      assert NonceField(nonce) + [0] == [0];
      FieldsEnd(b, at, end, p);
    } else {
      AppendAssoc(Tag(DTAG_NONCE), Blob(nonce.value), [0]);
      NonceFieldBack(b, at, end, p, nonce.value);
    }
  }

  /** No header can be read of these bytes. */
  predicate Headless(tail: Bytes) {
    tail == [] || (tail[0] != 0 && forall i :: 0 <= i < MAX_HEADER && i < |tail| ==> tail[i] < 128)
  }

  lemma {:induction false} NoHeadFrom(b: Bytes, at: nat, i: nat, val: nat)
    requires at + i <= |b|
    ensures DeheadFrom(b, at, |b|, i, val).None? <==>
              forall k :: at + i <= k < at + MAX_HEADER && k < |b| ==> b[k] < 128
    decreases |b| - at - i
  {
    if i < MAX_HEADER && at + i < |b| && b[at + i] < 128 {
      NoHeadFrom(b, at, i + 1, val * 128 + b[at + i]);
    }
  }

  /** An Interest with a nonce is read to its end and no further, if and only if what follows cannot be
      read as a header. */
  lemma NonceEndsIff(cs: seq<Bytes>, nonce: Bytes, tail: Bytes)
    requires Moderate(cs) && |nonce| == 4
    ensures var w := Interest(cs, Some(nonce));
            Parse(w + tail) == Some((DTAG_INTEREST, Blank().(comps := Kept(cs, 0), nonce := Some(nonce)), |w|))
            <==> Headless(tail)
  {
    hide Interest, Kept, Parse, DeheadFrom, Field, Consume;
    var w := Interest(cs, Some(nonce));
    var b := w + tail;
    InterestRoundTrip(cs, Some(nonce), tail);
    NoHeadFrom(b, |w|, 0, 0);
    assert forall k :: 0 <= k < |tail| ==> tail[k] == b[|w| + k];
    assert forall k :: |w| <= k < |b| ==> b[k] == tail[k - |w|];
    assert Dehead(b, |w|, |b|).None? <==> Headless(tail);
  }

  /** A zero behind it is taken for its end. */
  lemma NonceTakesZero(cs: seq<Bytes>, nonce: Bytes)
    requires Moderate(cs) && |nonce| == 4
    ensures var w := Interest(cs, Some(nonce));
            Parse(w + [0]) == Some((DTAG_INTEREST, Blank().(comps := Kept(cs, 0), nonce := Some(nonce)), |w| + 1))
  {
    hide Interest, Kept, Parse;
    InterestRoundTrip(cs, Some(nonce), [0]);
  }

  /** An Interest with a nonce comes back when nothing follows it. */
  lemma InterestAlone(cs: seq<Bytes>, nonce: Bytes)
    requires Moderate(cs) && |nonce| == 4
    ensures var w := Interest(cs, Some(nonce));
            Parse(w) == Some((DTAG_INTEREST, Blank().(comps := Kept(cs, 0), nonce := Some(nonce)), |w|))
  {
    hide Interest, Kept, Parse;
    var w := Interest(cs, Some(nonce));
    NonceEndsIff(cs, nonce, []);
    assert w + [] == w;
  }
}
