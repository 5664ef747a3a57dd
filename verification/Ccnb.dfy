/**
 The ccnb format: headers of variable size, nested fields closed by a zero byte, and the code that writes
 names, Interests and content objects.
 */
module Ccnb {
  import opened Base
  import opened Tlv

  const TT_DTAG: nat := 2
  const TT_DATTR: nat := 4
  const TT_BLOB: nat := 5
  const TT_UDATA: nat := 6
  const DTAG_NAME: nat := 14
  const DTAG_COMPONENT: nat := 15
  const DTAG_CONTENT: nat := 19
  const DTAG_INTEREST: nat := 26
  const DTAG_NONCE: nat := 41
  const DTAG_SCOPE: nat := 42
  const DTAG_ANSWER_ORIG_KIND: nat := 47
  const DTAG_PUBLISHER: nat := 60
  const DTAG_CONTENT_OBJECT: nat := 64
  const DTAG_MIN_SUFFIX: nat := 83
  const DTAG_MAX_SUFFIX: nat := 84
  const TWO53: nat := 0x20_0000_0000_0000

  // ---------------------------------------------------------------- the bytes

  /** Seven bits to a byte, high bits first, none for zero. */
  function Sevens(n: nat): Bytes {
    if n == 0 then [] else Sevens(n / 128) + [n % 128]
  }

  /** The last byte of a header bears the mark, four bits of the number and the type. */
  function Mark(num: nat, tt: nat): Byte
    requires tt < 8
  {
    128 + (num % 16) * 8 + tt
  }

  function Header(num: nat, tt: nat): Bytes
    requires tt < 8
  {
    Sevens(num / 16) + [Mark(num, tt)]
  }

  function Tag(num: nat): Bytes {
    Header(num, TT_DTAG)
  }

  function Blob(data: Bytes): Bytes {
    Header(|data|, TT_BLOB) + data
  }

  function Component(c: Bytes): Bytes {
    Tag(DTAG_COMPONENT) + (Blob(c) + [0])
  }

  function Components(cs: seq<Bytes>): Bytes {
    if cs == [] then [] else Component(cs[0]) + Components(cs[1..])
  }

  function Name(cs: seq<Bytes>): Bytes {
    Tag(DTAG_NAME) + (Components(cs) + [0])
  }

  /** A nonce is not closed: the zero that should close the Interest is taken for its end. */
  function NonceField(nonce: Option<Bytes>): Bytes {
    if nonce.None? then [] else Tag(DTAG_NONCE) + Blob(nonce.value)
  }

  function Interest(cs: seq<Bytes>, nonce: Option<Bytes>): Bytes {
    Tag(DTAG_INTEREST) + (Name(cs) + (NonceField(nonce) + [0]))
  }

  function ContentField(data: Bytes): Bytes {
    Tag(DTAG_CONTENT) + (Blob(data) + [0])
  }

  function Content(cs: seq<Bytes>, data: Bytes): Bytes {
    Tag(DTAG_CONTENT_OBJECT) + (Name(cs) + (ContentField(data) + [0]))
  }

  // ---------------------------------------------------------------- writing

  /** Writing `w` at `at` succeeds if it leaves at least one byte before `end`; nothing before `at` is touched. */
  ghost predicate Appended(before: Bytes, after: Bytes, at: nat, end: nat, ok: bool, len: nat, w: Bytes) {
    && |before| == |after| && at <= |before| && after[..at] == before[..at]
    && (ok <==> at + |w| < end)
    && (ok ==> len == |w| && at + |w| <= |before| && after[at..at + |w|] == w)
  }

  lemma AppendedThen(a: Bytes, b: Bytes, c: Bytes, at: nat, end: nat, n1: nat, ok: bool, n2: nat, w1: Bytes, w2: Bytes)
    requires Appended(a, b, at, end, true, n1, w1) && Appended(b, c, at + n1, end, ok, n2, w2)
    ensures Appended(a, c, at, end, ok, n1 + n2, w1 + w2)
  {
    var mid := at + n1;
    assert c[..at] == c[..mid][..at] && b[..at] == b[..mid][..at];
    if ok {
      assert c[at..mid] == c[..mid][at..] && b[at..mid] == b[..mid][at..];
      assert c[at..mid + n2] == c[at..mid] + c[mid..mid + n2];
    }
  }

  lemma AppendedFails(a: Bytes, b: Bytes, at: nat, end: nat, n: nat, m: nat, w: Bytes, all: Bytes)
    requires Appended(a, b, at, end, false, n, w) && |w| <= |all|
    ensures Appended(a, b, at, end, false, m, all)
  {
  }

  lemma Room(a: Bytes, b: Bytes, at: nat, end: nat, n: nat, w: Bytes)
    requires Appended(a, b, at, end, true, n, w)
    ensures n == |w| && at + n < end && at + n <= |a| == |b|
  {
  }

  /** The header, last byte first. */
  method Digits(num: nat, tt: nat) returns (tmp: Bytes)
    requires tt < 8 && num < TWO64
    ensures Reversed(tmp) == Header(num, tt)
  {
    hide Mark;
    tmp := [Mark(num, tt)];
    var n: nat := num / 16;
    while n > 0
      invariant Header(num, tt) == Sevens(n) + Reversed(tmp)
      decreases n
    {
      SevensMore(n, tmp);
      tmp := tmp + [n % 128];
      n := n / 128;
    }
  }

  /** Build the header from its end in a scratch buffer, then copy it in the right order. */
  method MkHeader(buf: array<Byte>, at: nat, end: nat, num: nat, tt: nat) returns (ok: bool, len: nat)
    requires tt < 8 && num < TWO64 && at <= end <= buf.Length
    modifies buf
    ensures Appended(old(buf[..]), buf[..], at, end, ok, len, Header(num, tt))
  {
    hide Header;
    var tmp := Digits(num, tt);
    if at + |tmp| >= end {
      return false, 0;
    }
    var i, p := |tmp|, at;
    while i > 0
      invariant 0 <= i <= |tmp| && p == at + |tmp| - i
      invariant buf[..at] == old(buf[..at])
      invariant buf[at..p] == Reversed(tmp)[..|tmp| - i]
    {
      ReversedAt(tmp, |tmp| - i);
      buf[p] := tmp[i - 1];
      assert buf[at..p + 1] == buf[at..p] + [tmp[i - 1]];
      p := p + 1;
      i := i - 1;
    }
    assert Reversed(tmp)[..|tmp|] == Reversed(tmp);
    return true, |tmp|;
  }

  function Reversed(s: Bytes): (r: Bytes)
    ensures |r| == |s|
  {
    if s == [] then [] else [s[|s| - 1]] + Reversed(s[..|s| - 1])
  }

  lemma {:induction false} ReversedAt(s: Bytes, k: nat)
    requires k < |s|
    ensures Reversed(s)[k] == s[|s| - 1 - k]
  {
    if k > 0 {
      ReversedAt(s[..|s| - 1], k - 1);
    }
  }

  lemma SevensMore(n: nat, tmp: Bytes)
    requires n > 0
    ensures Sevens(n) + Reversed(tmp) == Sevens(n / 128) + Reversed(tmp + [n % 128])
  {
    assert (tmp + [n % 128])[..|tmp|] == tmp;
    assert Reversed(tmp + [n % 128]) == [n % 128] + Reversed(tmp);
    AppendAssoc(Sevens(n / 128), [n % 128], Reversed(tmp));
  }

  /** Bytes that the caller has checked there is room for. */
  method Put(buf: array<Byte>, at: nat, ghost end: nat, data: Bytes) returns (len: nat)
    requires at + |data| <= buf.Length && at + |data| < end
    modifies buf
    ensures Appended(old(buf[..]), buf[..], at, end, true, len, data)
  {
    CopyTo(data, buf, at);
    len := |data|;
  }

  method MkComponent(val: Bytes, buf: array<Byte>, at: nat, end: nat) returns (ok: bool, len: nat)
    requires |val| < TWO64 && at <= end <= buf.Length
    modifies buf
    ensures Appended(old(buf[..]), buf[..], at, end, ok, len, Component(val))
  {
    hide Appended, Header;
    ghost var a := buf[..];
    ghost var w1, w2 := Tag(DTAG_COMPONENT), Header(|val|, TT_BLOB);
    ghost var all := Component(val);
    assert all == w1 + (w2 + val + [0]) && |all| == |w1| + |w2| + |val| + 1;
    ok, len := MkHeader(buf, at, end, DTAG_COMPONENT, TT_DTAG);
    if !ok {
      AppendedFails(a, buf[..], at, end, len, len, w1, all);
      return;
    }
    Room(a, buf[..], at, end, len, w1);
    ghost var b := buf[..];
    var start := at + len;
    ok, len := MkFieldRest(val, buf, start, end);
    AppendedThen(a, b, buf[..], at, end, start - at, ok, len, w1, Blob(val) + [0]);
    len := start - at + len;
  }

  /** A blob and the end of the field it is in. */
  method MkFieldRest(val: Bytes, buf: array<Byte>, at: nat, end: nat) returns (ok: bool, len: nat)
    requires |val| < TWO64 && at <= end <= buf.Length
    modifies buf
    ensures Appended(old(buf[..]), buf[..], at, end, ok, len, Blob(val) + [0])
  {
    hide Appended, Header;
    ghost var a := buf[..];
    ghost var w := Header(|val|, TT_BLOB);
    AppendAssoc(w, val, [0]);
    ok, len := MkHeader(buf, at, end, |val|, TT_BLOB);
    if !ok {
      AppendedFails(a, buf[..], at, end, len, len, w, Blob(val) + [0]);
      return;
    }
    Room(a, buf[..], at, end, len, w);
    ghost var b := buf[..];
    if at + len + |val| + 1 >= end {
      NoRoom(a, b, at, end, len, w, Blob(val) + [0]);
      return false, len;
    }
    var n := Put(buf, at + len, end, val + [0]);
    Room(b, buf[..], at + len, end, n, val + [0]);
    AppendedThen(a, b, buf[..], at, end, len, true, n, w, val + [0]);
    len := len + n;
  }

  lemma NoRoom(a: Bytes, b: Bytes, at: nat, end: nat, n: nat, w: Bytes, all: Bytes)
    requires Appended(a, b, at, end, true, n, w) && at + |all| >= end
    ensures Appended(a, b, at, end, false, n, all)
  {
  }

  lemma {:induction false} ComponentsUpTo(cs: seq<Bytes>, k: nat)
    requires k < |cs|
    ensures Components(cs[..k + 1]) == Components(cs[..k]) + Component(cs[k])
    ensures |Components(cs[..k + 1])| <= |Components(cs)|
    decreases |cs|
  {
    hide Component;
    if k == 0 {
      assert cs[..1] == [cs[0]] && cs[..0] == [] && cs[..1][1..] == cs[..0];
      assert Components([]) == [];
    } else {
      assert cs[..k + 1][1..] == cs[1..][..k] && cs[..k][1..] == cs[1..][..k - 1] && cs[..k][0] == cs[0];
      ComponentsUpTo(cs[1..], k - 1);
      AppendAssoc(Component(cs[0]), Components(cs[1..][..k - 1]), Component(cs[k]));
    }
  }

  predicate Sized(cs: seq<Bytes>) {
    forall c :: c in cs ==> |c| < TWO64
  }

  method MkName(cs: seq<Bytes>, buf: array<Byte>, at: nat, end: nat) returns (ok: bool, len: nat)
    requires Sized(cs) && at <= end <= buf.Length
    modifies buf
    ensures Appended(old(buf[..]), buf[..], at, end, ok, len, Name(cs))
  {
    hide Appended, Header, Component;
    ghost var a := buf[..];
    ghost var tag := Tag(DTAG_NAME);
    ghost var all := Name(cs);
    ok, len := MkHeader(buf, at, end, DTAG_NAME, TT_DTAG);
    if !ok {
      AppendedFails(a, buf[..], at, end, len, len, tag, all);
      return;
    }
    var i := 0;
    assert tag + Components(cs[..0]) == tag;
    while i < |cs|
      invariant 0 <= i <= |cs|
      invariant Appended(a, buf[..], at, end, true, len, tag + Components(cs[..i]))
    {
      ghost var b, w := buf[..], tag + Components(cs[..i]);
      Room(a, b, at, end, len, w);
      ComponentsUpTo(cs, i);
      AppendAssoc(tag, Components(cs[..i]), Component(cs[i]));
      var n;
      assert cs[i] in cs;
      ok, n := MkComponent(cs[i], buf, at + len, end);
      AppendedThen(a, b, buf[..], at, end, len, ok, n, w, Component(cs[i]));
      len := len + n;
      i := i + 1;
      if !ok {
        AppendedFails(a, buf[..], at, end, len, len, tag + Components(cs[..i]), all);
        return;
      }
    }
    assert cs[..|cs|] == cs;
    AppendAssoc(tag, Components(cs), [0]);
    ok, len := Close(a, buf, at, end, len, tag + Components(cs));
  }

  /** The zero byte at the end of a field. */
  method Close(ghost a: Bytes, buf: array<Byte>, at: nat, end: nat, done: nat, ghost w: Bytes)
    returns (ok: bool, len: nat)
    requires Appended(a, buf[..], at, end, true, done, w) && end <= buf.Length
    modifies buf
    ensures Appended(a, buf[..], at, end, ok, len, w + [0])
  {
    hide Appended;
    ghost var b := buf[..];
    Room(a, b, at, end, done, w);
    if at + done + 1 >= end {
      NoRoom(a, b, at, end, done, w, w + [0]);
      return false, done;
    }
    var n := Put(buf, at + done, end, [0]);
    Room(b, buf[..], at + done, end, n, [0]);
    AppendedThen(a, b, buf[..], at, end, done, true, n, w, [0]);
    ok, len := true, done + n;
  }

  /** Tag and name, which begin both kinds of packet. */
  method MkFront(tag: nat, cs: seq<Bytes>, buf: array<Byte>, at: nat, end: nat) returns (ok: bool, len: nat)
    requires Sized(cs) && at <= end <= buf.Length && tag < TWO64
    modifies buf
    ensures Appended(old(buf[..]), buf[..], at, end, ok, len, Tag(tag) + Name(cs))
  {
    hide Appended, Header, Name;
    ghost var a := buf[..];
    ok, len := MkHeader(buf, at, end, tag, TT_DTAG);
    if !ok {
      AppendedFails(a, buf[..], at, end, len, len, Tag(tag), Tag(tag) + Name(cs));
      return;
    }
    Room(a, buf[..], at, end, len, Tag(tag));
    ghost var b := buf[..];
    var n;
    ok, n := MkName(cs, buf, at + len, end);
    AppendedThen(a, b, buf[..], at, end, len, ok, n, Tag(tag), Name(cs));
    len := len + n;
  }

  lemma InterestParts(cs: seq<Bytes>, nonce: Option<Bytes>)
    ensures var w := Tag(DTAG_INTEREST) + Name(cs);
            Interest(cs, nonce) == if nonce.None? then w + [0] else w + Tag(DTAG_NONCE) + (Blob(nonce.value) + [0])
  {
    hide Header, Name, Blob;
    var w := Tag(DTAG_INTEREST) + Name(cs);
    AppendAssoc(Tag(DTAG_INTEREST), Name(cs), NonceField(nonce) + [0]);
    if nonce.Some? {
      AppendAssoc(Tag(DTAG_NONCE), Blob(nonce.value), [0]);
      AppendAssoc(w, Tag(DTAG_NONCE), Blob(nonce.value) + [0]);
    } else {
      assert NonceField(nonce) + [0] == [0];
    }
  }

  method FillInterest(cs: seq<Bytes>, nonce: Option<Bytes>, buf: array<Byte>, at: nat, end: nat)
    returns (ok: bool, len: nat)
    requires Sized(cs) && at <= end <= buf.Length && (nonce.Some? ==> |nonce.value| == 4)
    modifies buf
    ensures Appended(old(buf[..]), buf[..], at, end, ok, len, Interest(cs, nonce))
  {
    hide Appended, Tag, Name, Blob, NonceField, Interest;
    InterestParts(cs, nonce);
    ghost var a := buf[..];
    ghost var all := Interest(cs, nonce);
    ghost var w := Tag(DTAG_INTEREST) + Name(cs);
    ok, len := MkFront(DTAG_INTEREST, cs, buf, at, end);
    if !ok {
      AppendedFails(a, buf[..], at, end, len, len, w, all);
      return;
    }
    if nonce.None? {
      ok, len := Close(a, buf, at, end, len, w);
    } else {
      ok, len := MkTagged(a, DTAG_NONCE, nonce.value, buf, at, end, len, w);
    }
  }

  /** Behind what is written already, a tag, a blob and one zero byte. */
  method MkTagged(ghost a: Bytes, tag: nat, val: Bytes, buf: array<Byte>, at: nat, end: nat, done: nat, ghost w: Bytes)
    returns (ok: bool, len: nat)
    requires |val| < TWO64 && tag < TWO64 && end <= buf.Length && Appended(a, buf[..], at, end, true, done, w)
    modifies buf
    ensures Appended(a, buf[..], at, end, ok, len, w + Tag(tag) + (Blob(val) + [0]))
  {
    hide Appended, Header, Blob;
    ghost var b := buf[..];
    Room(a, b, at, end, done, w);
    var n;
    ok, n := MkHeader(buf, at + done, end, tag, TT_DTAG);
    AppendedThen(a, b, buf[..], at, end, done, ok, n, w, Tag(tag));
    len := done + n;
    if !ok {
      AppendedFails(a, buf[..], at, end, len, len, w + Tag(tag), w + Tag(tag) + (Blob(val) + [0]));
      return;
    }
    b := buf[..];
    Room(a, b, at, end, len, w + Tag(tag));
    ok, n := MkFieldRest(val, buf, at + len, end);
    AppendedThen(a, b, buf[..], at, end, len, ok, n, w + Tag(tag), Blob(val) + [0]);
    len := len + n;
  }

  lemma ContentParts(cs: seq<Bytes>, data: Bytes)
    ensures Content(cs, data) == Tag(DTAG_CONTENT_OBJECT) + Name(cs)
                                 + Tag(DTAG_CONTENT) + Header(|data|, TT_BLOB) + (data + [0, 0])
  {
    hide Header, Name;
    var w, t, h := Tag(DTAG_CONTENT_OBJECT) + Name(cs), Tag(DTAG_CONTENT), Header(|data|, TT_BLOB);
    AppendAssoc(Tag(DTAG_CONTENT_OBJECT), Name(cs), ContentField(data) + [0]);
    assert ContentField(data) + [0] == t + (h + (data + [0, 0]));
    AppendAssoc(w, t, h + (data + [0, 0]));
    AppendAssoc(w + t, h, data + [0, 0]);
  }

  lemma Wider(a: Bytes, b: Bytes, at: nat, end: nat, more: nat, n: nat, w: Bytes)
    requires Appended(a, b, at, end, true, n, w)
    ensures Appended(a, b, at, end + more, true, n, w)
  {
  }

  lemma FailsWide(a: Bytes, b: Bytes, at: nat, end: nat, more: nat, n: nat, w: Bytes, all: Bytes)
    requires Appended(a, b, at, end, false, n, w) && |w| + more <= |all|
    ensures Appended(a, b, at, end + more, false, n, all)
  {
  }

  /** Room is checked for everything but the data, for which the caller must have left room behind `end`. */
  method FillContent(cs: seq<Bytes>, data: Bytes, buf: array<Byte>, at: nat, end: nat)
    returns (ok: bool, contentpos: nat, len: nat)
    requires Sized(cs) && |data| < TWO64 && at <= end && end + |data| <= buf.Length
    modifies buf
    ensures Appended(old(buf[..]), buf[..], at, end + |data|, ok, len, Content(cs, data))
    ensures ok ==> contentpos + |data| + 2 == len && buf[at + contentpos..at + contentpos + |data|] == data
  {
    hide Appended, Tag, Header, Name, Content;
    ContentParts(cs, data);
    ghost var a, all := buf[..], Content(cs, data);
    ghost var w := Tag(DTAG_CONTENT_OBJECT) + Name(cs);
    contentpos := 0;
    ok, len := MkFront(DTAG_CONTENT_OBJECT, cs, buf, at, end);
    if !ok {
      FailsWide(a, buf[..], at, end, |data|, len, w, all);
      return;
    }
    ok, len := MkContentHead(a, |data|, buf, at, end, len, w);
    w := w + Tag(DTAG_CONTENT) + Header(|data|, TT_BLOB);
    if !ok {
      FailsWide(a, buf[..], at, end, |data|, len, w, all);
      return;
    }
    contentpos := len;
    ok, len := PutContent(a, data, buf, at, end, len, w);
    if ok {
      DataLies(a, buf[..], at, end + |data|, len, w, data);
    }
  }

  /** The data and the two zero bytes, checked only for the zero bytes. */
  method PutContent(ghost a: Bytes, data: Bytes, buf: array<Byte>, at: nat, end: nat, done: nat, ghost w: Bytes)
    returns (ok: bool, len: nat)
    requires end + |data| <= buf.Length && Appended(a, buf[..], at, end, true, done, w)
    modifies buf
    ensures Appended(a, buf[..], at, end + |data|, ok, len, w + (data + [0, 0]))
    ensures ok ==> done == |w|
  {
    hide Appended;
    ghost var b := buf[..];
    Room(a, b, at, end, done, w);
    Wider(a, b, at, end, |data|, done, w);
    if at + done + 2 >= end {
      NoRoom(a, b, at, end + |data|, done, w, w + (data + [0, 0]));
      return false, done;
    }
    var n := Put(buf, at + done, end + |data|, data + [0, 0]);
    AppendedThen(a, b, buf[..], at, end + |data|, done, true, n, w, data + [0, 0]);
    ok, len := true, done + n;
  }

  lemma DataLies(a: Bytes, b: Bytes, at: nat, end: nat, n: nat, w: Bytes, data: Bytes)
    requires Appended(a, b, at, end, true, n, w + (data + [0, 0]))
    ensures n == |w| + |data| + 2 && at + n <= |b| && b[at + |w|..at + |w| + |data|] == data
  {
    var all := b[at..at + n];
    assert all == w + (data + [0, 0]);
    forall i | 0 <= i < |data|
      ensures b[at + |w| + i] == data[i]
    {
      assert all[|w| + i] == b[at + (|w| + i)];
    }
  }

  method MkContentHead(ghost a: Bytes, size: nat, buf: array<Byte>, at: nat, end: nat, done: nat, ghost w: Bytes)
    returns (ok: bool, len: nat)
    requires size < TWO64 && end <= buf.Length && Appended(a, buf[..], at, end, true, done, w)
    modifies buf
    ensures Appended(a, buf[..], at, end, ok, len, w + Tag(DTAG_CONTENT) + Header(size, TT_BLOB))
  {
    hide Appended, Header;
    ghost var b := buf[..];
    Room(a, b, at, end, done, w);
    var n;
    ok, n := MkHeader(buf, at + done, end, DTAG_CONTENT, TT_DTAG);
    AppendedThen(a, b, buf[..], at, end, done, ok, n, w, Tag(DTAG_CONTENT));
    len := done + n;
    ghost var w1 := w + Tag(DTAG_CONTENT);
    if !ok {
      AppendedFails(a, buf[..], at, end, len, len, w1, w1 + Header(size, TT_BLOB));
      return;
    }
    b := buf[..];
    Room(a, b, at, end, len, w1);
    ok, n := MkHeader(buf, at + len, end, size, TT_BLOB);
    AppendedThen(a, b, buf[..], at, end, len, ok, n, w1, Header(size, TT_BLOB));
    len := len + n;
  }
}
