/**
 Decoding of the RPC data representation: any bytes, described exactly, and the trees that were written.
 */
module RdrDecode {
  import opened Base
  import opened Rdr
  import opened Tlv

  const INT32_MAX: nat := 0x7fffffff

  /** A decoded node: where its bytes start, how long its header is and all of it, a number if it is one,
      and its children (the operand of an application or abstraction first). */
  datatype Node = Node(typ: nat, flat: nat, head: nat, flatlen: nat, num: U64, kids: seq<Node>)

  datatype Got<+T> = Ok(it: T) | Err(code: int)

  predicate Leaf(typ: nat) {
    typ == FLATNAME || typ == NONNEGINT || typ == STR || typ == BIN || typ == NONCE
  }

  predicate HasFirst(typ: nat) {
    typ == APPLICATION || typ == LAMBDA
  }

  predicate Branch(typ: nat) {
    HasFirst(typ) || typ == SEQUENCE || typ == REQUEST || typ == REPLY
  }

  /** Type, announced length and size of the header at `at`. */
  function Dehead(b: Bytes, at: nat, end: nat): (r: Option<(nat, nat, nat)>)
    requires at <= end <= |b|
    ensures r.Some? ==> 2 <= r.value.2 <= end - at
  {
    var typ := ReadVar(b, at, end);
    if typ.None? then None else
      var len := ReadVar(b, at + typ.value.1, end);
      if len.None? then None else Some((typ.value.0, len.value.0, typ.value.1 + len.value.1))
  }

  /** Decode the node at `at`, in a buffer that ends at `end`. */
  function GetType(b: Bytes, at: nat, end: nat): (r: Got<Node>)
    requires at <= end <= |b|
    ensures r.Ok? ==> r.it.flat == at && 0 < r.it.flatlen <= end - at
    decreases end - at, 0
  {
    if at == end then Err(-2) else
      var h := Dehead(b, at, end);
      if h.None? || h.value.0 > INT32_MAX then Err(-3) else
        var (typ, vallen, head) := h.value;
        var from := at + head;
        var to := from + vallen;
        if to > end then Err(-4)
        else if Leaf(typ) then
          Ok(Node(typ, at, head, head + vallen, if typ == NONNEGINT then ReadNum(b, from, vallen) else 0, []))
        else if HasFirst(typ) then
          var first := GetType(b, from, to);
          if first.Err? then Err(if typ == APPLICATION then -5 else -6) else
            var rest := Kids(b, from + first.it.flatlen, to);
            if rest.Err? then Err(-10) else Ok(Node(typ, at, head, head + vallen, 0, [first.it] + rest.it))
        else if Branch(typ) then
          var kids := Kids(b, from, to);
          if kids.Err? then Err(-10) else Ok(Node(typ, at, head, head + vallen, 0, kids.it))
        else Err(-1)
  }

  /** Nodes up to the end, with nothing left over. */
  function Kids(b: Bytes, at: nat, end: nat): Got<seq<Node>>
    requires at <= end <= |b|
    decreases end - at, 1
  {
    if at == end then Ok([]) else
      var kid := GetType(b, at, end);
      if kid.Err? then Err(-10) else
        var rest := Kids(b, at + kid.it.flatlen, end);
        if rest.Err? then Err(-10) else Ok([kid.it] + rest.it)
  }

  /** What each error says of the bytes: nothing is there; no header, or a type beyond 31 bits; more announced than
      there is; an operand that fails; other children that fail; a type without meaning. */
  lemma ErrorCodes(b: Bytes, at: nat, end: nat)
    requires at <= end <= |b|
    ensures var r, h := GetType(b, at, end), Dehead(b, at, end);
            && (r == Err(-2) <==> at == end)
            && (r == Err(-3) <==> at < end && (h.None? || h.value.0 >= 0x8000_0000))
            && (r == Err(-4) <==> h.Some? && h.value.0 < 0x8000_0000 && at + h.value.2 + h.value.1 > end)
            && (r == Err(-1) <==> h.Some? && h.value.0 < 0x8000_0000 && at + h.value.2 + h.value.1 <= end
                                  && !Leaf(h.value.0) && !Branch(h.value.0))
            && (r == Err(-5) ==> h.Some? && h.value.0 == APPLICATION)
            && (r == Err(-6) ==> h.Some? && h.value.0 == LAMBDA)
            && (r.Err? ==> r.code in {-1, -2, -3, -4, -5, -6, -10})
  {
    hide ReadVar;
    NoHeadOfNothing(b, at, end);
  }

  lemma NoHeadOfNothing(b: Bytes, at: nat, end: nat)
    requires at <= end <= |b|
    ensures Dehead(b, at, end).Some? ==> at < end
  {
  }

  // ---------------------------------------------------------------- what the result means

  /** The nodes lie one behind the other from `from` to `to`. */
  predicate Tiles(kids: seq<Node>, from: nat, to: nat) {
    if kids == [] then from == to else kids[0].flat == from && Tiles(kids[1..], from + kids[0].flatlen, to)
  }

  /** The bytes at the place of a node are its header, then as much as the header announces: a plain value,
      or children that fill the space in order and are well formed themselves. */
  ghost predicate WellFormed(b: Bytes, n: Node) {
    && n.head <= n.flatlen && n.flat + n.flatlen <= |b|
    && Dehead(b, n.flat, n.flat + n.flatlen) == Some((n.typ, n.flatlen - n.head, n.head))
    && n.num == (if n.typ == NONNEGINT then ReadNum(b, n.flat + n.head, n.flatlen - n.head) else 0)
    && (Leaf(n.typ) || Branch(n.typ))
    && (if Leaf(n.typ) then n.kids == [] else Tiles(n.kids, n.flat + n.head, n.flat + n.flatlen))
    && (HasFirst(n.typ) ==> n.kids != [])
    && (forall i :: 0 <= i < |n.kids| ==> WellFormed(b, n.kids[i]))
  }

  /** A header does not depend on what follows it. */
  lemma DeheadLocal(b: Bytes, at: nat, end: nat, end': nat)
    requires at <= end <= |b| && at <= end' <= |b| && Dehead(b, at, end).Some?
    requires at + Dehead(b, at, end).value.2 <= end'
    ensures Dehead(b, at, end') == Dehead(b, at, end)
  {
    hide ReadNum;
  }

  lemma {:induction false} Sound(b: Bytes, at: nat, end: nat)
    requires at <= end <= |b|
    ensures var r := GetType(b, at, end); r.Ok? ==> WellFormed(b, r.it)
    decreases end - at, 0
  {
    hide Dehead, ReadNum, Tiles, WellFormed, Kids;
    var r := GetType(b, at, end);
    if r.Ok? {
      var n := r.it;
      DeheadLocal(b, at, end, at + n.flatlen);
      var from, to := at + n.head, at + n.flatlen;
      if HasFirst(n.typ) {
        Sound(b, from, to);
        var first := GetType(b, from, to).it;
        var rest := Kids(b, from + first.flatlen, to).it;
        SoundKids(b, from + first.flatlen, to);
        TilesCons(first, rest, from, to);
        assert forall i :: 0 < i < |n.kids| ==> n.kids[i] == rest[i - 1];
      } else if !Leaf(n.typ) {
        SoundKids(b, from, to);
      }
      Assemble(b, n);
    }
  }

  lemma Assemble(b: Bytes, n: Node)
    requires n.head <= n.flatlen && n.flat + n.flatlen <= |b|
    requires Dehead(b, n.flat, n.flat + n.flatlen) == Some((n.typ, n.flatlen - n.head, n.head))
    requires n.num == (if n.typ == NONNEGINT then ReadNum(b, n.flat + n.head, n.flatlen - n.head) else 0)
    requires Leaf(n.typ) || Branch(n.typ)
    requires if Leaf(n.typ) then n.kids == [] else Tiles(n.kids, n.flat + n.head, n.flat + n.flatlen)
    requires HasFirst(n.typ) ==> n.kids != []
    requires forall i :: 0 <= i < |n.kids| ==> WellFormed(b, n.kids[i])
    ensures WellFormed(b, n)
  {
    hide Dehead, ReadNum, Tiles;
  }

  lemma TilesCons(k: Node, kids: seq<Node>, from: nat, to: nat)
    requires k.flat == from && Tiles(kids, from + k.flatlen, to)
    ensures Tiles([k] + kids, from, to)
  {
    assert ([k] + kids)[1..] == kids;
  }

  lemma {:induction false} SoundKids(b: Bytes, at: nat, end: nat)
    requires at <= end <= |b|
    ensures var r := Kids(b, at, end);
            r.Ok? ==> Tiles(r.it, at, end) && forall i :: 0 <= i < |r.it| ==> WellFormed(b, r.it[i])
    decreases end - at, 1
  {
    hide GetType, WellFormed;
    if at < end && Kids(b, at, end).Ok? {
      var kid := GetType(b, at, end).it;
      Sound(b, at, end);
      SoundKids(b, at + kid.flatlen, end);
      TilesCons(kid, Kids(b, at + kid.flatlen, end).it, at, end);
    }
  }

  lemma {:induction false} Complete(b: Bytes, end: nat, n: Node)
    requires WellFormed(b, n) && n.flat + n.flatlen <= end <= |b|
    ensures GetType(b, n.flat, end) == Ok(n)
    decreases n, 0
  {
    hide Dehead, ReadNum, Tiles, Kids;
    DeheadLocal(b, n.flat, n.flat + n.flatlen, end);
    var from, to := n.flat + n.head, n.flat + n.flatlen;
    if HasFirst(n.typ) {
      TilesUncons(n.kids, from, to);
      Complete(b, to, n.kids[0]);
      assert forall i :: 0 <= i < |n.kids[1..]| ==> n.kids[1..][i] == n.kids[i + 1];
      CompleteKids(b, n, n.kids[1..], from + n.kids[0].flatlen, to);
      assert [n.kids[0]] + n.kids[1..] == n.kids;
    } else if !Leaf(n.typ) {
      CompleteKids(b, n, n.kids, from, to);
    }
  }

  lemma TilesUncons(kids: seq<Node>, from: nat, to: nat)
    requires Tiles(kids, from, to) && kids != []
    ensures kids[0].flat == from && Tiles(kids[1..], from + kids[0].flatlen, to)
    ensures from + kids[0].flatlen <= to
  {
    TilesForward(kids[1..], from + kids[0].flatlen, to);
  }

  lemma {:induction false} TilesForward(kids: seq<Node>, from: nat, to: nat)
    requires Tiles(kids, from, to)
    ensures from <= to
    decreases |kids|
  {
    if kids != [] {
      TilesForward(kids[1..], from + kids[0].flatlen, to);
    }
  }

  lemma {:induction false} CompleteKids(b: Bytes, n: Node, kids: seq<Node>, from: nat, to: nat)
    requires forall k :: k in kids ==> k < n && WellFormed(b, k)
    requires Tiles(kids, from, to) && to <= |b|
    ensures from <= to && Kids(b, from, to) == Ok(kids)
    decreases n, 0, |kids|
  {
    hide GetType, WellFormed, Tiles, Dehead, ReadNum;
    TilesForward(kids, from, to);
    if kids == [] {
      TilesNone(from, to);
    } else {
      TilesUncons(kids, from, to);
      assert kids[0] in kids;
      Complete(b, to, kids[0]);
      NonEmpty(b, kids[0]);
      assert forall k :: k in kids[1..] ==> k in kids;
      CompleteKids(b, n, kids[1..], from + kids[0].flatlen, to);
      assert [kids[0]] + kids[1..] == kids;
    }
  }

  lemma TilesNone(from: nat, to: nat)
    requires Tiles([], from, to)
    ensures from == to
  {
  }

  lemma NonEmpty(b: Bytes, n: Node)
    requires WellFormed(b, n)
    ensures n.flatlen > 0
  {
  }

  /** Decoding finds a node exactly when the bytes are well formed, and finds all of it. */
  lemma DecodesIffWellFormed(b: Bytes, at: nat, end: nat, n: Node)
    requires at <= end <= |b|
    ensures GetType(b, at, end) == Ok(n) <==> n.flat == at && at + n.flatlen <= end && WellFormed(b, n)
  {
    hide GetType, WellFormed;
    if GetType(b, at, end) == Ok(n) {
      Sound(b, at, end);
    }
    if n.flat == at && at + n.flatlen <= end && WellFormed(b, n) {
      Complete(b, end, n);
    }
  }

  // ---------------------------------------------------------------- round trip

  /** The tree that a node stands for. */
  ghost function TreeOf(b: Bytes, n: Node): Tree
    requires WellFormed(b, n)
  {
    var v := b[n.flat + n.head..n.flat + n.flatlen];
    if n.typ == FLATNAME then Var(v)
    else if n.typ == NONNEGINT then NonNegInt(n.num)
    else if n.typ == STR then Str(v)
    else if n.typ == BIN then Bin(v)
    else if n.typ == NONCE then Nonce(v)
    else
      var ts := TreesOf(b, n.kids);
      if n.typ == APPLICATION then App(ts[0], ts[1..])
      else if n.typ == LAMBDA then Lambda(ts[0], ts[1..])
      else if n.typ == SEQUENCE then Seq(ts)
      else if n.typ == REQUEST then Request(ts)
      else Reply(ts)
  }

  ghost function TreesOf(b: Bytes, kids: seq<Node>): (ts: seq<Tree>)
    requires forall i :: 0 <= i < |kids| ==> WellFormed(b, kids[i])
    ensures |ts| == |kids|
  {
    if kids == [] then [] else [TreeOf(b, kids[0])] + TreesOf(b, kids[1..])
  }

  /** The header that is written is understood iff it announces less than 2^32 bytes. */
  lemma HeaderBack(t: Tree, b: Bytes, at: nat, end: nat)
    requires LiesAt(b, at, Enc(t)) && at + |Enc(t)| <= end <= |b|
    ensures var head := |Enc(t)| - |Value(t)|;
            && head >= 2
            && LiesAt(b, at + head, Value(t))
            && Dehead(b, at, end) == if |Value(t)| < TWO32 then Some((Type(t), |Value(t)|, head)) else None
  {
    hide VarInt, ReadVar;
    var n := |Value(t)|;
    LiesApart(b, at, VarInt(Type(t)) + VarInt(n), Value(t));
    LiesApart(b, at, VarInt(Type(t)), VarInt(n));
    assert FieldLen(Type(t)) == |VarInt(Type(t))| && FieldLen(n) == |VarInt(n)|;
    ReadVarInt(b, at, end, Type(t));
    ReadVarInt(b, at + |VarInt(Type(t))|, end, n);
  }

  lemma {:induction false} KidsBack(ts: seq<Tree>, b: Bytes, at: nat, end: nat)
    requires AllKnown(ts) && |EncAll(ts)| < TWO32 && LiesAt(b, at, EncAll(ts)) && end == at + |EncAll(ts)|
    ensures var r := Kids(b, at, end);
            && r.Ok? && |r.it| == |ts|
            && (forall i :: 0 <= i < |r.it| ==> WellFormed(b, r.it[i]))
            && TreesOf(b, r.it) == ts
    decreases ts
  {
    hide GetType, WellFormed, TreeOf, Enc, Known;
    if ts != [] {
      var rest := ts[1..];
      LiesApart(b, at, Enc(ts[0]), EncAll(rest));
      EncSize(ts[0]);
      TreeBack(ts[0], b, at, end);
      var kid := GetType(b, at, end).it;
      KidsBack(rest, b, at + kid.flatlen, end);
      var more := Kids(b, at + kid.flatlen, end).it;
      assert ([kid] + more)[1..] == more;
      SoundKids(b, at, end);
      assert ts == [ts[0]] + rest;
    }
  }

  lemma EncSize(t: Tree)
    ensures |Enc(t)| == |VarInt(Type(t))| + |VarInt(|Value(t)|)| + |Value(t)| > |Value(t)|
  {
  }

  ghost predicate Plain(t: Tree) {
    t.Var? || t.NonNegInt? || t.Str? || t.Bin? || t.Nonce?
  }

  lemma PlainBack(t: Tree, b: Bytes, at: nat, end: nat)
    requires Plain(t) && |Value(t)| < TWO32 && LiesAt(b, at, Enc(t)) && at + |Enc(t)| <= end <= |b|
    ensures var r := GetType(b, at, end);
            r.Ok? && r.it.flatlen == |Enc(t)| && WellFormed(b, r.it) && TreeOf(b, r.it) == t
  {
    hide Enc, VarInt, Dehead, BigEndian, ReadNum, Kids;
    HeaderBack(t, b, at, end);
    EncSize(t);
    Sound(b, at, end);
    if t.NonNegInt? {
      WidthEnough(t.val);
      ReadBigEndian(b, at + |Enc(t)| - |Value(t)|, t.val, Width(t.val));
    }
  }

  lemma FirstTree(b: Bytes, first: Node, rest: seq<Node>)
    requires WellFormed(b, first) && forall i :: 0 <= i < |rest| ==> WellFormed(b, rest[i])
    ensures var kids := [first] + rest;
            && (forall i :: 0 <= i < |kids| ==> WellFormed(b, kids[i]))
            && TreesOf(b, kids) == [TreeOf(b, first)] + TreesOf(b, rest)
  {
    assert ([first] + rest)[1..] == rest;
  }

  lemma FirstNode(b: Bytes, at: nat, end: nat, typ: nat, vallen: nat, head: nat, first: Node, rest: seq<Node>)
    requires at < end <= |b| && HasFirst(typ) && at + head + vallen <= end
    requires Dehead(b, at, end) == Some((typ, vallen, head))
    requires GetType(b, at + head, at + head + vallen) == Ok(first)
    requires Kids(b, at + head + first.flatlen, at + head + vallen) == Ok(rest)
    ensures GetType(b, at, end) == Ok(Node(typ, at, head, head + vallen, 0, [first] + rest))
  {
    hide Dehead, Kids;
  }

  /** A node with an operand that goes first. */
  lemma FirstBack(t: Tree, f: Tree, ts: seq<Tree>, b: Bytes, at: nat, end: nat)
    requires t == App(f, ts) || t == Lambda(f, ts)
    requires Known(t) && |Value(t)| < TWO32 && LiesAt(b, at, Enc(t)) && at + |Enc(t)| <= end <= |b|
    ensures var r := GetType(b, at, end);
            r.Ok? && r.it.flatlen == |Enc(t)| && WellFormed(b, r.it) && TreeOf(b, r.it) == t
    decreases t, 0
  {
    hide Enc, EncAll, Dehead, WellFormed, Kids, GetType, LiesAt, VarInt, TreesOf;
    HeaderBack(t, b, at, end);
    EncSize(t);
    EncSize(f);
    var from := at + |Enc(t)| - |Value(t)|;
    LiesApart(b, from, Enc(f), EncAll(ts));
    TreeBack(f, b, from, at + |Enc(t)|);
    KidsBack(ts, b, from + |Enc(f)|, at + |Enc(t)|);
    Sound(b, at, end);
    var first := GetType(b, from, at + |Enc(t)|).it;
    var rest := Kids(b, from + |Enc(f)|, at + |Enc(t)|).it;
    FirstNode(b, at, end, Type(t), |Value(t)|, |Enc(t)| - |Value(t)|, first, rest);
    FirstTree(b, first, rest);
  }

  /** A node with a list of children. */
  lemma ListBack(t: Tree, ts: seq<Tree>, b: Bytes, at: nat, end: nat)
    requires t == Seq(ts) || t == Request(ts) || t == Reply(ts)
    requires Known(t) && |Value(t)| < TWO32 && LiesAt(b, at, Enc(t)) && at + |Enc(t)| <= end <= |b|
    ensures var r := GetType(b, at, end);
            r.Ok? && r.it.flatlen == |Enc(t)| && WellFormed(b, r.it) && TreeOf(b, r.it) == t
    decreases t, 0
  {
    hide Enc, EncAll, Dehead, WellFormed, Kids, LiesAt, VarInt, TreesOf;
    HeaderBack(t, b, at, end);
    EncSize(t);
    var from := at + |Enc(t)| - |Value(t)|;
    KidsBack(ts, b, from, at + |Enc(t)|);
    Sound(b, at, end);
  }

  /** Decoding what was written gives back the tree, and uses all that was written. */
  lemma {:induction false} TreeBack(t: Tree, b: Bytes, at: nat, end: nat)
    requires Known(t) && |Value(t)| < TWO32 && LiesAt(b, at, Enc(t)) && at + |Enc(t)| <= end <= |b|
    ensures var r := GetType(b, at, end);
            r.Ok? && r.it.flatlen == |Enc(t)| && WellFormed(b, r.it) && TreeOf(b, r.it) == t
    decreases t, 1
  {
    hide Enc, GetType, WellFormed, TreeOf;
    match t
    case App(f, args) => FirstBack(t, f, args, b, at, end);
    case Lambda(x, body) => FirstBack(t, x, body, b, at, end);
    case Seq(elems) => ListBack(t, elems, b, at, end);
    case Request(elems) => ListBack(t, elems, b, at, end);
    case Reply(elems) => ListBack(t, elems, b, at, end);
    case _ => PlainBack(t, b, at, end);
  }

  /** A tree comes back from its bytes iff its value is shorter than 2^32 bytes. */
  lemma RoundTripIff(t: Tree)
    requires Known(t)
    ensures var b := Enc(t);
            var r := GetType(b, 0, |b|);
            if |Value(t)| < TWO32
            then r.Ok? && r.it.flatlen == |b| && WellFormed(b, r.it) && TreeOf(b, r.it) == t
            else r == Err(-3)
  {
    hide Enc, VarInt, WellFormed, TreeOf, Dehead;
    var b := Enc(t);
    assert b[0..|b|] == b;
    EncSize(t);
    HeaderBack(t, b, 0, |b|);
    if |Value(t)| < TWO32 {
      TreeBack(t, b, 0, |b|);
    }
  }

  // ---------------------------------------------------------------- the code that reads

  /** What is still to come, put behind the children found. */
  function Behind(found: seq<Node>, rest: Got<seq<Node>>): Got<seq<Node>> {
    if rest.Err? then Err(-10) else Ok(found + rest.it)
  }

  lemma NextKid(b: Bytes, found: seq<Node>, at: nat, end: nat)
    requires at < end <= |b|
    ensures var a := GetType(b, at, end);
            Behind(found, Kids(b, at, end)) ==
            if a.Err? then Err(-10) else Behind(found + [a.it], Kids(b, at + a.it.flatlen, end))
  {
    hide GetType;
    var a := GetType(b, at, end);
    if a.Ok? && Kids(b, at + a.it.flatlen, end).Ok? {
      AppendAssoc(found, [a.it], Kids(b, at + a.it.flatlen, end).it);
    }
  }

  /** Decode the node at `at`: header, plain value or operand, then children until the space is used up. */
  method Decode(b: Bytes, at: nat, end: nat) returns (r: Got<Node>)
    requires at <= end <= |b|
    ensures r == GetType(b, at, end)
    decreases end - at
  {
    hide Dehead, ReadNum, Kids;
    if at == end {
      return Err(-2);
    }
    var h := Dehead(b, at, end);
    if h.None? || h.value.0 > INT32_MAX {
      return Err(-3);
    }
    var (typ, vallen, head) := h.value;
    var buf := at + head;
    if vallen > end - buf {
      return Err(-4);
    }
    var flatlen := head;
    if typ == NONNEGINT {
      var val := ReadNonNeg(b, buf, vallen);
      return Ok(Node(typ, at, head, head + vallen, val, []));
    } else if Leaf(typ) {
      return Ok(Node(typ, at, head, head + vallen, 0, []));
    }
    var found: seq<Node> := [];
    if HasFirst(typ) {
      var a := Decode(b, buf, buf + vallen);
      if a.Err? {
        return Err(if typ == APPLICATION then -5 else -6);
      }
      buf, vallen, flatlen := buf + a.it.flatlen, vallen - a.it.flatlen, flatlen + a.it.flatlen;
      found := [a.it];
    } else if !Branch(typ) {
      return Err(-1);
    }
    ghost var start, first, to := buf, found, buf + vallen;
    NoneFound(first, Kids(b, start, to));
    while vallen > 0
      invariant start <= buf <= to && vallen == to - buf && flatlen == buf - at
      invariant Behind(first, Kids(b, start, to)) == Behind(found, Kids(b, buf, to))
    {
      NextKid(b, found, buf, to);
      var a := Decode(b, buf, buf + vallen);
      if a.Err? {
        return Err(-10);
      }
      flatlen := flatlen + a.it.flatlen;
      found := found + [a.it];
      buf, vallen := buf + a.it.flatlen, vallen - a.it.flatlen;
    }
    LastKid(b, found, to);
    r := Ok(Node(typ, at, head, flatlen, 0, found));
  }

  lemma NoneFound(first: seq<Node>, rest: Got<seq<Node>>)
    ensures first == [] && rest.Ok? ==> Behind(first, rest) == rest
  {
    if rest.Ok? {
      assert [] + rest.it == rest.it;
    }
  }

  lemma LastKid(b: Bytes, found: seq<Node>, to: nat)
    requires to <= |b|
    ensures Behind(found, Kids(b, to, to)) == Ok(found)
  {
    assert found + [] == found;
  }
}
