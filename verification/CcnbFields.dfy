/**
 Fields of ccnb packets that this code reads but does not write, wherever they lie in a packet.
 */
module CcnbFields {
  import opened Base
  import opened Tlv
  import opened Ccnb
  import opened CcnbRead

  function DecimalText(n: nat): Bytes {
    if n < 10 then [48 + n] else DecimalText(n / 10) + [48 + n % 10]
  }

  lemma {:induction false} DecimalBack(n: U64)
    ensures Decimal(DecimalText(n)) == Some(n)
  {
    if n < 10 {
      assert DecimalText(n)[..0] == [];
    } else {
      DecimalBack(n / 10);
      var front := DecimalText(n / 10);
      assert DecimalText(n)[..|DecimalText(n)| - 1] == front;
    }
  }

  /** A field whose value is a blob, closed by a zero. */
  function SmallField(num: nat, v: Bytes): Bytes {
    Tag(num) + (Blob(v) + [0])
  }

  lemma SmallFieldBack(b: Bytes, at: nat, end: nat, p: Pkt, num: nat, v: Bytes)
    requires IsSmall(num) && |v| < TWO53
    requires LiesAt(b, at, SmallField(num, v)) && at + |SmallField(num, v)| <= end <= |b|
    ensures Fields(b, at, end, p) ==
            if Small(p, num, v).None? then None
            else Fields(b, at + |SmallField(num, v)|, end, Small(p, num, v).value)
  {
    hide Dehead, Header, LiesAt, Hunt, Small;
    LiesApart(b, at, Tag(num), Blob(v) + [0]);
    HeaderBack(b, at, end, num, TT_DTAG);
    var pos := at + |Tag(num)|;
    BlobBack(b, pos, end, v);
    LiesMeans(b, pos + |Blob(v)| - |v|, v);
  }

  lemma {:induction false} DecimalShort(n: nat, k: nat)
    requires k > 0 && n < Power(k)
    ensures |DecimalText(n)| <= 3 * k
  {
    if n >= 1000 {
      assert DecimalText(n) == DecimalText(n / 1000) + [48 + n / 100 % 10, 48 + n / 10 % 10, 48 + n % 10] by {
        DecimalThree(n);
      }
      assert n / 1000 <= n / 256 < Power(k - 1);
      DecimalShort(n / 1000, k - 1);
    } else {
      assert n >= 100 ==> |DecimalText(n / 10)| == |DecimalText(n / 10 / 10)| + 1 && n / 10 / 10 < 10;
    }
  }

  lemma DecimalThree(n: nat)
    requires n >= 1000
    ensures DecimalText(n) == DecimalText(n / 1000) + [48 + n / 100 % 10, 48 + n / 10 % 10, 48 + n % 10]
  {
    assert n / 10 / 10 == n / 100 && n / 100 / 10 == n / 1000;
    assert DecimalText(n) == DecimalText(n / 10) + [48 + n % 10];
    assert DecimalText(n / 10) == DecimalText(n / 100) + [48 + n / 10 % 10];
    assert DecimalText(n / 100) == DecimalText(n / 1000) + [48 + n / 100 % 10];
  }

  /** The numbers of an Interest are read from their decimal text; one that does not fit its field is refused. */
  lemma NumbersBack(b: Bytes, at: nat, end: nat, p: Pkt, num: nat, n: U64)
    requires num == DTAG_ANSWER_ORIG_KIND || num == DTAG_MIN_SUFFIX || num == DTAG_MAX_SUFFIX
    requires LiesAt(b, at, SmallField(num, DecimalText(n))) && at + |SmallField(num, DecimalText(n))| <= end <= |b|
    ensures var next := at + |SmallField(num, DecimalText(n))|;
            Fields(b, at, end, p) ==
            if n > (if num == DTAG_ANSWER_ORIG_KIND then 0xffff else 0xffff_ffff) then None
            else Fields(b, next, end,
                        if num == DTAG_ANSWER_ORIG_KIND then p.(answerOrigKind := n)
                        else if num == DTAG_MIN_SUFFIX then p.(minSuffix := n)
                        else p.(maxSuffix := n))
  {
    hide Fields, LiesAt, Decimal, SmallField;
    PowerEight();
    DecimalShort(n, 8);
    SmallFieldBack(b, at, end, p, num, DecimalText(n));
    DecimalBack(n);
  }

  /** A scope of one digit is read if it is below 3; any other byte counts as -1. */
  lemma ScopeBack(b: Bytes, at: nat, end: nat, p: Pkt, c: Byte)
    requires LiesAt(b, at, SmallField(DTAG_SCOPE, [c])) && at + |SmallField(DTAG_SCOPE, [c])| <= end <= |b|
    ensures Fields(b, at, end, p) == Fields(b, at + |SmallField(DTAG_SCOPE, [c])|, end,
              p.(scope := if c == 48 then 0 else if c == 49 then 1 else if c == 50 then 2 else -1))
  {
    hide Fields, LiesAt, SmallField;
    SmallFieldBack(b, at, end, p, DTAG_SCOPE, [c]);
  }

  /** The publisher's digest is read, the first one if there are several. */
  lemma PublisherBack(b: Bytes, at: nat, end: nat, p: Pkt, v: Bytes)
    requires |v| < TWO53
    requires LiesAt(b, at, SmallField(DTAG_PUBLISHER, v)) && at + |SmallField(DTAG_PUBLISHER, v)| <= end <= |b|
    ensures Fields(b, at, end, p) == Fields(b, at + |SmallField(DTAG_PUBLISHER, v)|, end,
              if p.publisher.None? then p.(publisher := Some(v)) else p)
  {
    hide Fields, LiesAt, SmallField;
    SmallFieldBack(b, at, end, p, DTAG_PUBLISHER, v);
  }

  /** Anything that may stand in a field: a blob, text, or a tag or attribute around more of the kind. */
  datatype Element =
    | BlobElement(data: Bytes)
    | TextElement(data: Bytes)
    | Tagged(num: nat, isAttr: bool, inner: seq<Element>)

  function ElementBytes(e: Element): Bytes
    decreases e, 0
  {
    match e
    case BlobElement(data) => Header(|data|, TT_BLOB) + data
    case TextElement(data) => Header(|data|, TT_UDATA) + data
    case Tagged(num, isAttr, inner) => Header(num, if isAttr then TT_DATTR else TT_DTAG) + (AllBytes(inner) + [0])
  }

  function AllBytes(es: seq<Element>): Bytes {
    if es == [] then [] else ElementBytes(es[0]) + AllBytes(es[1..])
  }

  /** All numbers and lengths fit a header. */
  predicate Modest(e: Element)
    decreases e, 0
  {
    match e
    case BlobElement(data) => |data| < TWO53
    case TextElement(data) => |data| < TWO53
    case Tagged(num, _, inner) => num < TWO53 && AllModest(inner)
  }

  predicate AllModest(es: seq<Element>) {
    es == [] || (Modest(es[0]) && AllModest(es[1..]))
  }

  /** Where the last blob or text of elements that lie at `at` is found, at any depth; `val` if there is none. */
  function LastPlace(es: seq<Element>, at: nat, val: Place): Place
    decreases es, 1
  {
    if es == [] then val else LastPlace(es[1..], at + |ElementBytes(es[0])|, PlaceIn(es[0], at, val))
  }

  function PlaceIn(e: Element, at: nat, val: Place): Place
    decreases e, 0
  {
    var w := ElementBytes(e);
    match e
    case BlobElement(data) => Some((at + |w| - |data|, |data|))
    case TextElement(data) => Some((at + |w| - |data|, |data|))
    case Tagged(_, _, inner) => LastPlace(inner, at + |w| - |AllBytes(inner)| - 1, val)
  }

  lemma {:induction false} PlaceBound(es: seq<Element>, at: nat, val: Place, end: nat)
    requires at + |AllBytes(es)| <= end && (val.Some? ==> val.value.0 + val.value.1 <= end)
    ensures var r := LastPlace(es, at, val); r.Some? ==> r.value.0 + r.value.1 <= end
    decreases es, 1
  {
    hide Header;
    if es != [] {
      PlaceInBound(es[0], at, val, end);
      PlaceBound(es[1..], at + |ElementBytes(es[0])|, PlaceIn(es[0], at, val), end);
    }
  }

  lemma {:induction false} PlaceInBound(e: Element, at: nat, val: Place, end: nat)
    requires at + |ElementBytes(e)| <= end && (val.Some? ==> val.value.0 + val.value.1 <= end)
    ensures var r := PlaceIn(e, at, val); r.Some? ==> r.value.0 + r.value.1 <= end
    decreases e, 0
  {
    hide Header;
    match e
    case Tagged(_, _, inner) => PlaceBound(inner, at + |ElementBytes(e)| - |AllBytes(inner)| - 1, val, end);
    case _ =>
  }

  /** Whatever elements a field holds, nested to any depth, the reader stops right behind the zero that closes
      it, and the last blob or text on the way is its value. */
  lemma {:induction false} HuntBack(b: Bytes, at: nat, end: nat, es: seq<Element>, val: Place)
    requires AllModest(es) && LiesAt(b, at, AllBytes(es) + [0]) && at + |AllBytes(es)| + 1 <= end <= |b|
    requires val.Some? ==> val.value.0 + val.value.1 <= |b|
    ensures Hunt(b, at, end, val) == Some((at + |AllBytes(es)| + 1, LastPlace(es, at, val)))
    decreases es, 1
  {
    hide Dehead, Header, LiesAt;
    if es == [] {
      assert [] + [0] == [0];
      ZeroEnds(b, at, end);
    } else {
      var e, rest := es[0], es[1..];
      AppendAssoc(ElementBytes(e), AllBytes(rest), [0]);
      LiesApart(b, at, ElementBytes(e), AllBytes(rest) + [0]);
      PlaceInBound(e, at, val, |b|);
      ElementBack(b, at, end, e, val);
      HuntBack(b, at + |ElementBytes(e)|, end, rest, PlaceIn(e, at, val));
    }
  }

  /** One element is passed. */
  lemma {:induction false} ElementBack(b: Bytes, at: nat, end: nat, e: Element, val: Place)
    requires Modest(e) && LiesAt(b, at, ElementBytes(e)) && at + |ElementBytes(e)| <= end <= |b|
    requires val.Some? ==> val.value.0 + val.value.1 <= |b|
    ensures var h := Dehead(b, at, end);
            && h.Some? && !Ends(h.value)
            && Consume(b, h.value.typ, h.value.num, h.value.pos, end, val) ==
               Some((at + |ElementBytes(e)|, PlaceIn(e, at, val)))
    decreases e, 0
  {
    hide Dehead, Header, LiesAt, Hunt, LastPlace;
    match e
    case BlobElement(data) =>
      LiesApart(b, at, Header(|data|, TT_BLOB), data);
      HeaderBack(b, at, end, |data|, TT_BLOB);
    case TextElement(data) =>
      LiesApart(b, at, Header(|data|, TT_UDATA), data);
      HeaderBack(b, at, end, |data|, TT_UDATA);
    case Tagged(num, isAttr, inner) =>
      var tt := if isAttr then TT_DATTR else TT_DTAG;
      LiesApart(b, at, Header(num, tt), AllBytes(inner) + [0]);
      HeaderBack(b, at, end, num, tt);
      HuntBack(b, at + |Header(num, tt)|, end, inner, val);
  }

  /** A field with a tag that means nothing here is passed over, whatever it holds. */
  lemma OtherFieldSkipped(b: Bytes, at: nat, end: nat, p: Pkt, num: nat, es: seq<Element>)
    requires num < TWO53 && AllModest(es) && num != DTAG_NAME && num != DTAG_CONTENT && !IsSmall(num)
    requires var w := Tag(num) + (AllBytes(es) + [0]); LiesAt(b, at, w) && at + |w| <= end <= |b|
    ensures Fields(b, at, end, p) == Fields(b, at + |Tag(num) + (AllBytes(es) + [0])|, end, p)
  {
    hide Dehead, Header, LiesAt, Hunt, AllBytes, LastPlace, AllModest;
    LiesApart(b, at, Tag(num), AllBytes(es) + [0]);
    HeaderBack(b, at, end, num, TT_DTAG);
    HuntBack(b, at + |Tag(num)|, end, es, None);
  }

  /** So is anything but a tag between the fields, and anything but a component in a name. */
  lemma OthersSkipped(b: Bytes, at: nat, end: nat, e: Element)
    requires Modest(e) && LiesAt(b, at, ElementBytes(e)) && at + |ElementBytes(e)| <= end <= |b|
    ensures !(e.Tagged? && !e.isAttr) ==>
              forall p :: Fields(b, at, end, p) == Fields(b, at + |ElementBytes(e)|, end, p)
    ensures !(e.Tagged? && !e.isAttr && e.num == DTAG_COMPONENT) ==>
              forall cs :: NameFrom(b, at, end, cs) == NameFrom(b, at + |ElementBytes(e)|, end, cs)
  {
    hide Dehead, Header, LiesAt, Hunt, PlaceIn;
    ElementBack(b, at, end, e, None);
    TypeOf(b, at, end, e);
  }

  lemma TypeOf(b: Bytes, at: nat, end: nat, e: Element)
    requires Modest(e) && LiesAt(b, at, ElementBytes(e)) && at + |ElementBytes(e)| <= end <= |b|
    ensures var h := Dehead(b, at, end);
            && h.Some? && (h.value.typ == TT_DTAG <==> e.Tagged? && !e.isAttr)
            && (e.Tagged? ==> h.value.num == e.num)
  {
    hide Dehead, Header, LiesAt;
    match e
    case BlobElement(data) =>
      LiesApart(b, at, Header(|data|, TT_BLOB), data);
      HeaderBack(b, at, end, |data|, TT_BLOB);
    case TextElement(data) =>
      LiesApart(b, at, Header(|data|, TT_UDATA), data);
      HeaderBack(b, at, end, |data|, TT_UDATA);
    case Tagged(num, isAttr, inner) =>
      var tt := if isAttr then TT_DATTR else TT_DTAG;
      LiesApart(b, at, Header(num, tt), AllBytes(inner) + [0]);
      HeaderBack(b, at, end, num, tt);
  }

  /** Content is the last blob of its field, and the last such field counts; a field without a blob is none. */
  lemma ContentBack(b: Bytes, at: nat, end: nat, p: Pkt, es: seq<Element>)
    requires AllModest(es)
    requires var w := Tag(DTAG_CONTENT) + (AllBytes(es) + [0]); LiesAt(b, at, w) && at + |w| <= end <= |b|
    ensures var place := LastPlace(es, at + |Tag(DTAG_CONTENT)|, None);
            && (place.Some? ==> place.value.0 + place.value.1 <= |b|)
            && Fields(b, at, end, p) == Fields(b, at + |Tag(DTAG_CONTENT) + (AllBytes(es) + [0])|, end,
                 if place.None? then p
                 else p.(content := Some(b[place.value.0..place.value.0 + place.value.1])))
  {
    hide Dehead, Header, LiesAt, Hunt, AllBytes, LastPlace, AllModest;
    LiesApart(b, at, Tag(DTAG_CONTENT), AllBytes(es) + [0]);
    HeaderBack(b, at, end, DTAG_CONTENT, TT_DTAG);
    PlaceBound(es, at + |Tag(DTAG_CONTENT)|, None, |b|);
    HuntBack(b, at + |Tag(DTAG_CONTENT)|, end, es, None);
  }

  /** A header of another type, and a blob or text longer than what is left, are refused wherever they stand. */
  lemma UnreadableRefused(b: Bytes, at: nat, end: nat)
    requires at <= end <= |b| && Dehead(b, at, end).Some? && !Ends(Dehead(b, at, end).value)
    requires var h := Dehead(b, at, end).value;
             h.typ !in {2, 4, 5, 6} || (h.typ in {5, 6} && h.pos + h.num > end)
    ensures Hunt(b, at, end, None) == None && forall cs :: NameFrom(b, at, end, cs) == None
    ensures forall p :: Fields(b, at, end, p) == None
  {
    hide Dehead;
  }

  /** The first nonce counts. */
  lemma NonceBack(b: Bytes, at: nat, end: nat, p: Pkt, v: Bytes)
    requires |v| < TWO53
    requires LiesAt(b, at, SmallField(DTAG_NONCE, v)) && at + |SmallField(DTAG_NONCE, v)| <= end <= |b|
    ensures Fields(b, at, end, p) == Fields(b, at + |SmallField(DTAG_NONCE, v)|, end,
              if p.nonce.None? then p.(nonce := Some(v)) else p)
  {
    hide Fields, LiesAt, SmallField;
    SmallFieldBack(b, at, end, p, DTAG_NONCE, v);
  }

  /** A scope of more or less than one byte is passed over. */
  lemma LongScopeSkipped(b: Bytes, at: nat, end: nat, p: Pkt, v: Bytes)
    requires |v| < TWO53 && |v| != 1
    requires LiesAt(b, at, SmallField(DTAG_SCOPE, v)) && at + |SmallField(DTAG_SCOPE, v)| <= end <= |b|
    ensures Fields(b, at, end, p) == Fields(b, at + |SmallField(DTAG_SCOPE, v)|, end, p)
  {
    hide Fields, LiesAt, SmallField;
    SmallFieldBack(b, at, end, p, DTAG_SCOPE, v);
  }

  /** Text is a number exactly if it has nothing but digits. */
  lemma {:induction false} DecimalIff(v: Bytes)
    ensures Decimal(v).Some? <==> forall i :: 0 <= i < |v| ==> 0x30 <= v[i] <= 0x39
    decreases |v|
  {
    if v != [] {
      DecimalIff(v[..|v| - 1]);
    }
  }

  /** What does not begin with a tag is no packet; of what does, the tag is the kind of packet. */
  lemma PacketTag(b: Bytes)
    ensures Parse(b).Some? ==>
              var h := Dehead(b, 0, |b|); h.Some? && h.value.typ == 2 && Parse(b).value.0 == h.value.num
  {
    hide Dehead, Fields;
  }

  /** No byte is read of a header beyond the eighth. */
  lemma HeaderLimit(b: Bytes, at: nat)
    requires at + 8 <= |b| && b[at] != 0 && forall i :: at <= i < at + 8 ==> b[i] < 128
    ensures Dehead(b, at, |b|) == None
  {
    NoHeadFrom(b, at, 0, 0);
  }
}
