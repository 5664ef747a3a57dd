/**
 The RPC data representation: trees of values, their lengths, the bytes written for them and what decoding
 makes of any bytes.
 */
module Rdr {
  import opened Base
  import opened Tlv

  const FLATNAME: nat := 0
  const NONNEGINT: nat := 1
  const APPLICATION: nat := 2
  const STR: nat := 3
  const SEQUENCE: nat := 4
  const LAMBDA: nat := 5
  const BIN: nat := 6
  const NONCE: nat := 7
  const REQUEST: nat := 0x81
  const REPLY: nat := 0x82

  /** A tree built by the constructors of the library. Unknown is a code point without a meaning here, or
      an application or abstraction without an operand: nothing can be written for it. */
  datatype Tree =
    | Var(name: Bytes)
    | NonNegInt(val: U64)
    | Str(str: Bytes)
    | Bin(data: Bytes)
    | Nonce(data: Bytes)
    | App(fct: Tree, args: seq<Tree>)
    | Lambda(bound: Tree, body: seq<Tree>)
    | Seq(elems: seq<Tree>)
    | Request(elems: seq<Tree>)
    | Reply(elems: seq<Tree>)
    | Unknown(code: Byte)

  // ---------------------------------------------------------------- writing

  function Type(t: Tree): nat {
    match t
    case Var(_) => FLATNAME
    case NonNegInt(_) => NONNEGINT
    case Str(_) => STR
    case Bin(_) => BIN
    case Nonce(_) => NONCE
    case App(_, _) => APPLICATION
    case Lambda(_, _) => LAMBDA
    case Seq(_) => SEQUENCE
    case Request(_) => REQUEST
    case Reply(_) => REPLY
    case Unknown(c) => c
  }

  /** The bytes of a tree. */
  function Enc(t: Tree): Bytes {
    var v := Value(t);
    VarInt(Type(t)) + VarInt(|v|) + v
  }

  function Value(t: Tree): Bytes
    decreases t, 0
  {
    match t
    case Var(s) => s
    case NonNegInt(v) => BigEndian(v, Width(v))
    case Str(s) => s
    case Bin(s) => s
    case Nonce(s) => s
    case App(f, args) => Enc(f) + EncAll(args)
    case Lambda(x, body) => Enc(x) + EncAll(body)
    case Seq(elems) => EncAll(elems)
    case Request(elems) => EncAll(elems)
    case Reply(elems) => EncAll(elems)
    case Unknown(_) => []
  }

  function EncAll(ts: seq<Tree>): Bytes {
    if ts == [] then [] else Enc(ts[0]) + EncAll(ts[1..])
  }

  function TlvLen(typ: nat, n: nat): nat {
    FieldLen(typ) + FieldLen(n) + n
  }

  /** The flat length of a tree, computed without writing it; none if there is nothing to write. */
  function FlatLen(t: Tree): Option<nat>
    decreases t, 1
  {
    var len := ValueLen(t);
    if len.None? then None
    else if t.Str? then Some(TlvLen(FLATNAME, len.value))
    else Some(TlvLen(Type(t), len.value))
  }

  function ValueLen(t: Tree): Option<nat>
    decreases t, 0
  {
    match t
    case Var(s) => Some(|s|)
    case NonNegInt(v) => Some(Width(v))
    case Str(s) => Some(|s|)
    case Bin(s) => Some(|s|)
    case Nonce(s) => Some(|s|)
    case App(f, args) => Plus(FlatLen(f), FlatLenAll(args))
    case Lambda(x, body) => Plus(FlatLen(x), FlatLenAll(body))
    case Seq(elems) => FlatLenAll(elems)
    case Request(elems) => FlatLenAll(elems)
    case Reply(elems) => FlatLenAll(elems)
    case Unknown(_) => None
  }

  function FlatLenAll(ts: seq<Tree>): Option<nat> {
    if ts == [] then Some(0) else Plus(FlatLen(ts[0]), FlatLenAll(ts[1..]))
  }

  function Plus(a: Option<nat>, b: Option<nat>): Option<nat> {
    if a.Some? && b.Some? then Some(a.value + b.value) else None
  }

  /** Everything in the tree has a meaning. */
  predicate Known(t: Tree)
    decreases t, 0
  {
    match t
    case App(f, args) => Known(f) && AllKnown(args)
    case Lambda(x, body) => Known(x) && AllKnown(body)
    case Seq(elems) => AllKnown(elems)
    case Request(elems) => AllKnown(elems)
    case Reply(elems) => AllKnown(elems)
    case Unknown(_) => false
    case _ => true
  }

  predicate AllKnown(ts: seq<Tree>) {
    ts == [] || (Known(ts[0]) && AllKnown(ts[1..]))
  }

  /** The length computed is the number of bytes written, and there is one iff the tree can be written. */
  lemma {:induction false} FlatLenExact(t: Tree)
    ensures FlatLen(t) == if Known(t) then Some(|Enc(t)|) else None
    decreases t, 1
  {
    hide Value, ValueLen, BigEndian;
    ValueLenExact(t);
  }

  lemma {:induction false} ValueLenExact(t: Tree)
    ensures ValueLen(t) == if Known(t) then Some(|Value(t)|) else None
    decreases t, 0
  {
    hide Enc, FlatLen, BigEndian, Width;
    match t
    case App(f, args) =>
      FlatLenExact(f);
      FlatLenAllExact(args);
    case Lambda(x, body) =>
      FlatLenExact(x);
      FlatLenAllExact(body);
    case Seq(elems) => FlatLenAllExact(elems);
    case Request(elems) => FlatLenAllExact(elems);
    case Reply(elems) => FlatLenAllExact(elems);
    case _ =>
  }

  lemma {:induction false} FlatLenAllExact(ts: seq<Tree>)
    ensures FlatLenAll(ts) == if AllKnown(ts) then Some(|EncAll(ts)|) else None
    decreases ts
  {
    hide Enc, FlatLen, Known;
    if ts != [] {
      FlatLenExact(ts[0]);
      FlatLenAllExact(ts[1..]);
    }
  }

  // ---------------------------------------------------------------- the code that writes

  /** Counts the bytes of a number by shifting it out. */
  method IntLen(val: U64) returns (len: nat)
    ensures len == Width(val)
  {
    len := 0;
    var v := val;
    while true
      invariant len + Width(v) == Width(val)
      decreases v
    {
      len := len + 1;
      v := v / 256;
      if v == 0 {
        break;
      }
    }
  }

  /** Walks the tree, adding to a running length. */
  method GetFlatLen(t: Tree, flatlen: nat) returns (ok: bool, r: nat)
    ensures ok <==> Known(t)
    ensures ok ==> r == flatlen + |Enc(t)|
    decreases t
  {
    hide Width, BigEndian, VarInt, EncAll, AllKnown, FlatLenAll;
    FlatLenExact(t);
    var len := 0;
    r := flatlen;
    match t {
      case Var(s) =>
        return true, flatlen + TlvLen(FLATNAME, |s|);
      case NonNegInt(val) =>
        len := IntLen(val);
        return true, flatlen + TlvLen(NONNEGINT, len);
      case Str(s) =>
        return true, flatlen + TlvLen(FLATNAME, |s|);
      case Bin(s) =>
        return true, flatlen + TlvLen(BIN, |s|);
      case Nonce(s) =>
        return true, flatlen + TlvLen(NONCE, |s|);
      case App(f, args) =>
        ok, len := GetFlatLen(f, 0);
        if !ok {
          return;
        }
        ok, len := GetFlatLens(args, len);
      case Lambda(x, body) =>
        ok, len := GetFlatLen(x, 0);
        if !ok {
          return;
        }
        ok, len := GetFlatLens(body, len);
      case Seq(elems) =>
        ok, len := GetFlatLens(elems, 0);
      case Request(elems) =>
        ok, len := GetFlatLens(elems, 0);
      case Reply(elems) =>
        ok, len := GetFlatLens(elems, 0);
      case Unknown(_) =>
        return false, 0;
    }
    if ok {
      r := flatlen + TlvLen(Type(t), len);
    }
  }

  /** The loop over the children. */
  method GetFlatLens(ts: seq<Tree>, flatlen: nat) returns (ok: bool, r: nat)
    ensures ok <==> AllKnown(ts)
    ensures ok ==> r == flatlen + |EncAll(ts)|
    decreases ts
  {
    r := flatlen;
    var i := 0;
    assert ts[0..] == ts;
    while i < |ts|
      invariant 0 <= i <= |ts|
      invariant AllKnown(ts) <==> AllKnown(ts[i..])
      invariant AllKnown(ts) ==> flatlen + |EncAll(ts)| == r + |EncAll(ts[i..])|
    {
      assert ts[i..][0] == ts[i] && ts[i..][1..] == ts[i + 1..];
      ok, r := GetFlatLen(ts[i], r);
      if !ok {
        return;
      }
      i := i + 1;
    }
    ok := true;
  }

  /** The low-order bytes of a number, the last one first. */
  method FillDigits(val: nat, n: nat, buf: array<Byte>, at: nat)
    requires at + n <= buf.Length
    modifies buf
    ensures Wrote(old(buf[..]), buf[..], at, BigEndian(val, n))
  {
    var v, i := val, n;
    while i > 0
      invariant 0 <= i <= n
      invariant buf[..at + i] == old(buf[..at + i]) && buf[at + n..] == old(buf[at + n..])
      invariant BigEndian(val, n) == BigEndian(v, i) + buf[at + i..at + n]
    {
      assert BigEndian(v, i) == BigEndian(v / 256, i - 1) + [v % 256];
      ghost var done := buf[at + i..at + n];
      i := i - 1;
      buf[at + i] := v % 256;
      v := v / 256;
      assert buf[at + i..at + n] == [buf[at + i]] + done;
    }
    assert buf[..] == buf[..at] + buf[at..at + n] + buf[at + n..];
  }

  method FillTorL(val: nat, buf: array<Byte>, at: nat) returns (n: nat)
    requires at + |VarInt(val)| <= buf.Length
    modifies buf
    ensures n == |VarInt(val)| && Wrote(old(buf[..]), buf[..], at, VarInt(val))
  {
    hide BigEndian, VarInt;
    VarIntForm(val);
    if val < 253 {
      buf[at] := val;
      return 1;
    }
    var len, t := 8, 255;
    if val <= 0xffff {
      len, t := 2, 253;
    } else if val <= 0xffffffff {
      len, t := 4, 254;
    }
    buf[at] := t;
    ghost var mid := buf[..];
    FillDigits(val, len, buf, at + 1);
    WroteThen(old(buf[..]), mid, buf[..], at, [t], BigEndian(val, len));
    n := len + 1;
  }

  method FillTandL(typ: nat, len: nat, buf: array<Byte>, at: nat) returns (n: nat)
    requires at + |VarInt(typ)| + |VarInt(len)| <= buf.Length
    modifies buf
    ensures n == |VarInt(typ)| + |VarInt(len)|
    ensures Wrote(old(buf[..]), buf[..], at, VarInt(typ) + VarInt(len))
  {
    hide VarInt;
    var i := FillTorL(typ, buf, at);
    ghost var mid := buf[..];
    var j := FillTorL(len, buf, at + i);
    WroteThen(old(buf[..]), mid, buf[..], at, VarInt(typ), VarInt(len));
    n := i + j;
  }

  method FillBytes(typ: nat, data: Bytes, buf: array<Byte>, at: nat)
    requires at + |VarInt(typ) + VarInt(|data|) + data| <= buf.Length
    modifies buf
    ensures Wrote(old(buf[..]), buf[..], at, VarInt(typ) + VarInt(|data|) + data)
  {
    hide VarInt;
    var len := FillTandL(typ, |data|, buf, at);
    ghost var mid := buf[..];
    CopyTo(data, buf, at + len);
    WroteThen(old(buf[..]), mid, buf[..], at, VarInt(typ) + VarInt(|data|), data);
  }

  /** Write a tree into the buffer. */
  method SerializeFill(t: Tree, buf: array<Byte>, at: nat)
    requires Known(t) && at + |Enc(t)| <= buf.Length
    modifies buf
    ensures Wrote(old(buf[..]), buf[..], at, Enc(t))
    decreases t, 1
  {
    match t
    case Var(s) => FillBytes(FLATNAME, s, buf, at);
    case Bin(s) => FillBytes(BIN, s, buf, at);
    case Str(s) => FillBytes(STR, s, buf, at);
    case Nonce(s) => FillBytes(NONCE, s, buf, at);
    case NonNegInt(val) => FillNonNegInt(val, buf, at);
    case App(f, args) => FillNode(t, [f], args, buf, at);
    case Lambda(x, body) => FillNode(t, [x], body, buf, at);
    case Request(elems) => FillNode(t, [], elems, buf, at);
    case Reply(elems) => FillNode(t, [], elems, buf, at);
    case Seq(elems) => FillNode(t, [], elems, buf, at);
  }

  method FillNonNegInt(val: U64, buf: array<Byte>, at: nat)
    requires at + |Enc(NonNegInt(val))| <= buf.Length
    modifies buf
    ensures Wrote(old(buf[..]), buf[..], at, Enc(NonNegInt(val)))
  {
    hide BigEndian, Width;
    PowerEight();
    WidthFits(val, 8);
    var ok, flatlen := GetFlatLen(NonNegInt(val), 0);
    var len := FillTandL(NONNEGINT, flatlen - 2, buf, at);
    ghost var mid := buf[..];
    FillDigits(val, flatlen - 2, buf, at + 2);
    WroteThen(old(buf[..]), mid, buf[..], at, VarInt(NONNEGINT) + VarInt(Width(val)), BigEndian(val, Width(val)));
  }

  /** A node with children: header, the child that goes first if any, the others. */
  method FillNode(t: Tree, first: seq<Tree>, rest: seq<Tree>, buf: array<Byte>, at: nat)
    requires AllKnown(first) && AllKnown(rest) && |first| <= 1 && Value(t) == EncAll(first) + EncAll(rest)
    requires forall c :: c in first || c in rest ==> c < t
    requires at + |Enc(t)| <= buf.Length
    modifies buf
    ensures Wrote(old(buf[..]), buf[..], at, Enc(t))
    decreases t, 0
  {
    hide Enc, VarInt, Known, Type, Value, EncAll, AllKnown, Wrote;
    var ok, len := GetFlatLens(first, 0);
    ok, len := GetFlatLens(rest, len);
    EncParts(t);
    var n := FillTandL(Type(t), len, buf, at);
    ghost var b := buf[..];
    FillChildren(t, first, rest, buf, at + n);
    WroteThen(old(buf[..]), b, buf[..], at, VarInt(Type(t)) + VarInt(|Value(t)|), Value(t));
  }

  method FillChildren(ghost t: Tree, first: seq<Tree>, rest: seq<Tree>, buf: array<Byte>, at: nat)
    requires AllKnown(first) && AllKnown(rest)
    requires forall c :: c in first || c in rest ==> c < t
    requires at + |EncAll(first) + EncAll(rest)| <= buf.Length
    modifies buf
    ensures Wrote(old(buf[..]), buf[..], at, EncAll(first) + EncAll(rest))
    decreases t, 0, 1
  {
    hide EncAll, AllKnown, Wrote;
    var m := FillAll(t, first, buf, at);
    ghost var b := buf[..];
    var n := FillAll(t, rest, buf, at + m);
    WroteThen(old(buf[..]), b, buf[..], at, EncAll(first), EncAll(rest));
  }

  lemma EncParts(t: Tree)
    ensures Enc(t) == VarInt(Type(t)) + VarInt(|Value(t)|) + Value(t)
  {
  }

  lemma ChildrenFrom(ts: seq<Tree>, i: nat)
    requires i < |ts| && AllKnown(ts[i..])
    ensures Known(ts[i]) && AllKnown(ts[i + 1..]) && EncAll(ts[i..]) == Enc(ts[i]) + EncAll(ts[i + 1..])
  {
    assert ts[i..][0] == ts[i] && ts[i..][1..] == ts[i + 1..];
  }

  lemma NoChildren(ts: seq<Tree>)
    ensures ts[0..] == ts && EncAll(ts[|ts|..]) == []
  {
  }

  /** The children, one after the other. */
  method FillAll(ghost t: Tree, ts: seq<Tree>, buf: array<Byte>, at: nat) returns (n: nat)
    requires AllKnown(ts) && at + |EncAll(ts)| <= buf.Length
    requires forall c :: c in ts ==> c < t
    modifies buf
    ensures n == |EncAll(ts)| && Wrote(old(buf[..]), buf[..], at, EncAll(ts))
    decreases t, 0, 0
  {
    hide Enc, Known, Wrote, EncAll, AllKnown;
    NoChildren(ts);
    n := 0;
    var i := 0;
    ghost var done: Bytes := [];
    WroteNothing(buf[..], at);
    while i < |ts|
      invariant 0 <= i <= |ts| && n == |done|
      invariant AllKnown(ts[i..]) && EncAll(ts) == done + EncAll(ts[i..])
      invariant Wrote(old(buf[..]), buf[..], at, done)
    {
      var c := ts[i];
      assert c in ts;
      ChildrenFrom(ts, i);
      AppendAssoc(done, Enc(c), EncAll(ts[i + 1..]));
      ghost var mid := buf[..];
      SerializeFill(c, buf, at + n);
      WroteThen(old(buf[..]), mid, buf[..], at, done, Enc(c));
      var ok, len := GetFlatLen(c, 0);
      done := done + Enc(c);
      n := n + len;
      i := i + 1;
    }
    assert EncAll(ts) == done;
  }

  /** Serialize if everything has a meaning and the buffer has room; else leave the buffer alone. */
  method Serialize(t: Tree, buf: array<Byte>) returns (res: Option<nat>)
    modifies buf
    ensures res == if Known(t) && |Enc(t)| <= buf.Length then Some(|Enc(t)|) else None
    ensures res.Some? ==> buf[..] == Enc(t) + old(buf[|Enc(t)|..])
    ensures res.None? ==> buf[..] == old(buf[..])
  {
    var ok, len := GetFlatLen(t, 0);
    if !ok || len > buf.Length {
      return None;
    }
    SerializeFill(t, buf, 0);
    res := Some(len);
  }
}
