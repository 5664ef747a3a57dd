/**
 Printing names, and exactly which names come back from their text.
 */
module UriRoundTrip {
  import opened Base
  import opened Uri

  // ---------------------------------------------------------------- printing

  function HexDigit(v: nat): Byte
    requires v < 16
  {
    if v < 10 then 0x30 + v else 0x61 + v - 10
  }

  /** A byte as it is printed. Bytes from 0x80 on are negative characters, which are widened to 32 bits
      before they are printed in hexadecimal. */
  function Escaped(c: Byte, slashes: bool): (r: Bytes)
    ensures |r| > 0 && (|r| == 1 ==> r[0] == c) && (|r| > 1 ==> r[0] == PERCENT) && 0 !in r
  {
    if c >= 0x80 then [PERCENT, 0x66, 0x66, 0x66, 0x66, 0x66, 0x66, HexDigit(c / 16), HexDigit(c % 16)]
    else if c < 0x20 || c == 0x7f || (slashes && c == SLASH) then [PERCENT, HexDigit(c / 16), HexDigit(c % 16)]
    else [c]
  }

  function Text(c: Bytes, slashes: bool): Bytes {
    if c == [] then [] else Escaped(c[0], slashes) + Text(c[1..], slashes)
  }

  predicate Printable(b: Byte, slashes: bool) {
    0x20 <= b < 0x7f && (slashes ==> b != 0x2f)
  }

  /** Nothing else is ever printed. */
  lemma {:induction false} PrintableOnly(c: Bytes, slashes: bool)
    ensures forall i :: 0 <= i < |Text(c, slashes)| ==> Printable(Text(c, slashes)[i], slashes)
  {
    if c != [] {
      PrintableOnly(c[1..], slashes);
      EscapedPrintable(c[0], slashes);
    }
  }

  lemma EscapedPrintable(b: Byte, slashes: bool)
    ensures forall i :: 0 <= i < |Escaped(b, slashes)| ==> Printable(Escaped(b, slashes)[i], slashes)
  {
  }

  /** What is printable is printed as it is. */
  lemma {:induction false} PrintableStays(c: Bytes, slashes: bool)
    requires forall i :: 0 <= i < |c| ==> Printable(c[i], slashes)
    ensures Text(c, slashes) == c
  {
    if c != [] {
      PrintableStays(c[1..], slashes);
      assert Escaped(c[0], slashes) == [c[0]];
    }
  }

  function Printed(cs: seq<Bytes>, slashes: bool): Bytes {
    if cs == [] then [] else [SLASH] + (Text(cs[0], slashes) + Printed(cs[1..], slashes))
  }

  /** A component as printed from position `len` on: a text that runs past the maximal prefix size breaks
      off. */
  function ShownComp(c: Bytes, slashes: bool, len: nat): Bytes {
    if c == [] then [] else
      var e := Escaped(c[0], slashes);
      if len + |e| > MAX_PREFIX_SIZE then e else e + ShownComp(c[1..], slashes, len + |e|)
  }

  /** What is printed; every component is at least begun. */
  function Shown(cs: seq<Bytes>, slashes: bool, len: nat): Bytes {
    if cs == [] then [] else
      var t := ShownComp(cs[0], slashes, len + 1);
      [SLASH] + (t + Shown(cs[1..], slashes, len + 1 + |t|))
  }

  lemma {:induction false} ShownCompFits(c: Bytes, slashes: bool, len: nat)
    ensures len + |Text(c, slashes)| <= MAX_PREFIX_SIZE ==> ShownComp(c, slashes, len) == Text(c, slashes)
    ensures len + |Text(c, slashes)| > MAX_PREFIX_SIZE >= len ==> len + |ShownComp(c, slashes, len)| > MAX_PREFIX_SIZE
  {
    hide Escaped;
    if c != [] {
      ShownCompFits(c[1..], slashes, len + |Escaped(c[0], slashes)|);
    }
  }

  /** A name whose text fits the maximal prefix size is printed whole; of any other more than that is
      printed. */
  lemma {:induction false} ShownFits(cs: seq<Bytes>, slashes: bool, len: nat)
    requires len <= MAX_PREFIX_SIZE
    ensures len + |Printed(cs, slashes)| <= MAX_PREFIX_SIZE ==> Shown(cs, slashes, len) == Printed(cs, slashes)
    ensures len + |Printed(cs, slashes)| > MAX_PREFIX_SIZE ==> len + |Shown(cs, slashes, len)| > MAX_PREFIX_SIZE
  {
    hide ShownComp, Text;
    if cs != [] && len < MAX_PREFIX_SIZE {
      ShownCompFits(cs[0], slashes, len + 1);
      var t := ShownComp(cs[0], slashes, len + 1);
      if len + 1 + |t| <= MAX_PREFIX_SIZE {
        ShownFits(cs[1..], slashes, len + 1 + |t|);
      }
    }
  }

  /** Print into the space left, which may cut the text off; the result is the length of the whole text. */
  method Snprintf(buf: array<Byte>, at: nat, space: nat, text: Bytes) returns (result: nat)
    requires at + space <= buf.Length
    modifies buf
    ensures result == |text| && buf[..at] == old(buf[..at])
    ensures |text| < space ==> buf[at..at + |text|] == text && buf[at + |text|] == 0
  {
    var i := 0;
    while i < |text| && i + 1 < space
      invariant 0 <= i <= |text| && (i < space || i == 0)
      invariant buf[..at] == old(buf[..at]) && (space > 0 ==> buf[at..at + i] == text[..i])
    {
      buf[at + i] := text[i];
      assert buf[at..at + i + 1] == buf[at..at + i] + [text[i]];
      i := i + 1;
    }
    if space > 0 {
      buf[at + i] := 0;
      assert |text| < space ==> text[..i] == text;
    }
    result := |text|;
  }

  /** `len` bytes of the text are in the buffer, closed by a zero byte, and `rest` is to come. */
  ghost predicate Printing(buf: Bytes, len: nat, all: Bytes, rest: Bytes) {
    len < |buf| && all == buf[..len] + rest && (len > 0 ==> buf[len] == 0)
  }

  /** Print one piece more, if there is room for it. */
  method PrintPiece(buf: array<Byte>, len: nat, buflen: nat, piece: Bytes, ghost all: Bytes, ghost rest: Bytes)
    returns (ok: bool, n: nat)
    requires len < buflen <= buf.Length && Printing(buf[..], len, all, piece + rest) && piece != []
    modifies buf
    ensures ok <==> len + |piece| < buflen
    ensures ok ==> n == len + |piece| && Printing(buf[..], n, all, rest)
    ensures !ok ==> |all| >= buflen
  {
    var result := Snprintf(buf, len, buflen - len, piece);
    ok := result < buflen - len;
    n := len + result;
    if ok {
      assert buf[..n] == buf[..len] + piece;
      AppendAssoc(buf[..len], piece, rest);
    }
  }

  /** Print a component, byte by byte. */
  method PrintComp(c: Bytes, slashes: bool, buf: array<Byte>, at: nat, buflen: nat, ghost all: Bytes, ghost rest: Bytes)
    returns (ok: bool, len: nat)
    requires 0 < at < buflen <= buf.Length && Printing(buf[..], at, all, ShownComp(c, slashes, at) + rest)
    modifies buf
    ensures ok ==> len < buflen && len == at + |ShownComp(c, slashes, at)| && Printing(buf[..], len, all, rest)
    ensures !ok ==> |all| >= buflen
  {
    hide Printing, Escaped, ShownComp;
    len, ok := at, true;
    ghost var end := at + |ShownComp(c, slashes, at)|;
    var j := 0;
    assert c[0..] == c;
    while j < |c|
      invariant 0 <= j <= |c| && 0 < len < buflen && len + |ShownComp(c[j..], slashes, len)| == end && ok
      invariant Printing(buf[..], len, all, ShownComp(c[j..], slashes, len) + rest)
    {
      ghost var e := Escaped(c[j], slashes);
      ghost var more := if len + |e| > MAX_PREFIX_SIZE then [] else ShownComp(c[j + 1..], slashes, len + |e|);
      ShownNext(c, slashes, len, j);
      AppendAssoc(e, more, rest);
      ok, len := PrintPiece(buf, len, buflen, Escaped(c[j], slashes), all, more + rest);
      if !ok {
        return;
      }
      if len > MAX_PREFIX_SIZE {
        assert more + rest == rest;
        return;
      }
      j := j + 1;
    }
    assert c[|c|..] == [];
    ShownNothing(slashes, len, rest);
  }

  lemma ShownNothing(slashes: bool, len: nat, rest: Bytes)
    ensures ShownComp([], slashes, len) == [] && [] + rest == rest
  {
  }

  /** Print a name; no result if the buffer is too small. */
  method PrefixToStr(cs: seq<Bytes>, slashes: bool, buf: array<Byte>, buflen: nat) returns (ok: bool)
    requires 0 < buflen <= buf.Length
    modifies buf
    ensures ok <==> |Shown(cs, slashes, 0)| < buflen
    ensures ok && cs != [] ==> IsString(buf[..], 0, Shown(cs, slashes, 0))
    ensures |Printed(cs, slashes)| <= MAX_PREFIX_SIZE ==> Shown(cs, slashes, 0) == Printed(cs, slashes)
    ensures buflen <= MAX_PREFIX_SIZE + 1 ==> (ok <==> |Printed(cs, slashes)| < buflen)
  {
    hide Printing, ShownComp, Printed;
    ghost var all := Shown(cs, slashes, 0);
    ShownFits(cs, slashes, 0);
    var len: nat, i: nat := 0, 0;
    StartPrinting(buf[..], all);
    assert cs[0..] == cs;
    while i < |cs|
      invariant 0 <= i <= |cs| && len < buflen && (i > 0 ==> len > 0)
      invariant Printing(buf[..], len, all, Shown(cs[i..], slashes, len))
    {
      var c := cs[i];
      ghost var t := ShownComp(c, slashes, len + 1);
      ghost var end := len + 1 + |t|;
      ghost var rest := Shown(cs[i + 1..], slashes, end);
      assert cs[i..][0] == c && cs[i..][1..] == cs[i + 1..];
      ok, len := PrintPiece(buf, len, buflen, [SLASH], all, t + rest);
      if !ok {
        return;
      }
      ok, len := PrintComp(c, slashes, buf, len, buflen, all, rest);
      if !ok {
        return;
      }
      i := i + 1;
    }
    EndPrinting(buf[..], len, all);
    NoZeros(cs, slashes, 0);
    ok := true;
  }

  lemma StartPrinting(buf: Bytes, all: Bytes)
    requires |buf| > 0
    ensures Printing(buf, 0, all, all)
  {
  }

  lemma EndPrinting(buf: Bytes, len: nat, all: Bytes)
    requires Printing(buf, len, all, [])
    ensures len == |all| && len < |buf| && buf[0..len] == all && (len > 0 ==> buf[len] == 0)
  {
  }

  lemma ShownNext(c: Bytes, slashes: bool, len: nat, j: nat)
    requires j < |c|
    ensures var e := Escaped(c[j], slashes);
            ShownComp(c[j..], slashes, len) ==
            e + if len + |e| > MAX_PREFIX_SIZE then [] else ShownComp(c[j + 1..], slashes, len + |e|)
  {
    hide Escaped;
    assert c[j..][1..] == c[j + 1..];
    assert Escaped(c[j], slashes) + [] == Escaped(c[j], slashes);
  }

  lemma {:induction false} NoZeros(cs: seq<Bytes>, slashes: bool, len: nat)
    ensures 0 !in Shown(cs, slashes, len) && (cs != [] ==> Shown(cs, slashes, len) != [])
  {
    hide ShownComp;
    if cs != [] {
      NoZerosIn(cs[0], slashes, len + 1);
      NoZeros(cs[1..], slashes, len + 1 + |ShownComp(cs[0], slashes, len + 1)|);
    }
  }

  lemma {:induction false} NoZerosIn(c: Bytes, slashes: bool, len: nat)
    ensures 0 !in ShownComp(c, slashes, len)
  {
    hide Escaped;
    if c != [] {
      NoZerosIn(c[1..], slashes, len + |Escaped(c[0], slashes)|);
    }
  }

  // ---------------------------------------------------------------- what comes back

  /** No byte is 0x80 or more, and every percent sign has fewer than two printed bytes behind it. */
  predicate Survives(c: Bytes) {
    c == [] || (c[0] < 0x80 && (c[0] == PERCENT ==> |Text(c[1..], true)| < 2) && Survives(c[1..]))
  }

  /** How one byte is printed, seen from the reader. */
  lemma EscapedShape(b: Byte)
    requires b < 0x80
    ensures var e := Escaped(b, true);
            && (|e| == 1 || (|e| == 3 && e[0] == PERCENT && e[1] != PERCENT && e[2] != PERCENT
                             && Hex2Int(e[1]) * 16 + Hex2Int(e[2]) == b))
            && (b == PERCENT ==> e == [PERCENT])
  {
  }

  lemma UnescapedPlain(x: Byte, s: Bytes)
    requires x != PERCENT || |s| < 2
    ensures Unescaped([x] + s) == [x] + Unescaped(s)
  {
    assert ([x] + s)[1..] == s;
  }

  lemma UnescapedTriple(x: Byte, y: Byte, s: Bytes)
    ensures Unescaped([PERCENT, x, y] + s) == [Hex2Int(x) * 16 + Hex2Int(y)] + Unescaped(s)
  {
    assert ([PERCENT, x, y] + s)[3..] == s;
  }

  /** The character is the hexadecimal digit for `v`, in lower or in upper case. */
  predicate IsDigitFor(c: Byte, v: nat) {
    if v < 10 then c == 0x30 + v else v < 16 && (c == 0x61 + v - 10 || c == 0x41 + v - 10)
  }

  /** Any two digits behind a percent sign are read as the byte they write. */
  lemma EscapeRead(b: Byte, x: Byte, y: Byte, s: Bytes)
    requires IsDigitFor(x, b / 16) && IsDigitFor(y, b % 16)
    ensures Unescaped([PERCENT, x, y] + s) == [b] + Unescaped(s)
  {
    UnescapedTriple(x, y, s);
    assert Hex2Int(x) == b / 16 && Hex2Int(y) == b % 16;
  }

  lemma TextCons(c: Bytes)
    requires c != []
    ensures Text(c, true) == Escaped(c[0], true) + Text(c[1..], true) && |Text(c, true)| >= |c|
    decreases |c|
  {
    hide Escaped;
    if |c| > 1 {
      TextCons(c[1..]);
    }
  }

  /** The first byte comes back, unless it is a percent sign with too much behind it. */
  lemma FirstBack(c: Bytes)
    requires c != [] && c[0] < 0x80 && (c[0] == PERCENT ==> |Text(c[1..], true)| < 2)
    ensures Unescaped(Text(c, true)) == [c[0]] + Unescaped(Text(c[1..], true))
  {
    hide Escaped, Hex2Int;
    TextCons(c);
    var e, rest := Escaped(c[0], true), Text(c[1..], true);
    EscapedShape(c[0]);
    if |e| == 1 {
      assert e == [c[0]];
      UnescapedPlain(c[0], rest);
    } else {
      assert e == [PERCENT, e[1], e[2]];
      UnescapedTriple(e[1], e[2], rest);
    }
  }

  lemma NothingUnescaped()
    ensures Unescaped([]) == []
  {
  }

  lemma {:induction false} UnescapedWord(w: Bytes, s: Bytes)
    requires PERCENT !in w
    ensures Unescaped(w + s) == w + Unescaped(s)
  {
    hide Unescaped;
    if w == [] {
      assert w + s == s;
    } else {
      assert w + s == [w[0]] + (w[1..] + s) && w[0] in w;
      UnescapedPlain(w[0], w[1..] + s);
      UnescapedWord(w[1..], s);
    }
  }

  /** Behind the 0xff: four letters f, and the two digits of the byte. */
  function HighTail(c: Byte): (w: Bytes)
    requires c >= 0x80
    ensures PERCENT !in w && |w| == 6 && (c == 0xff ==> forall i :: 0 <= i < 6 ==> w[i] == 0x66)
  {
    [0x66, 0x66, 0x66, 0x66, HexDigit(c / 16), HexDigit(c % 16)]
  }

  /** A byte from 0x80 on comes back as seven. */
  lemma HighBack(c: Bytes)
    requires c != [] && c[0] >= 0x80
    ensures Unescaped(Text(c, true)) == [0xff] + (HighTail(c[0]) + Unescaped(Text(c[1..], true)))
  {
    hide Unescaped;
    var w, rest := HighTail(c[0]), Text(c[1..], true);
    assert Text(c, true) == [PERCENT, 0x66, 0x66] + (w + rest);
    UnescapedTriple(0x66, 0x66, w + rest);
    UnescapedWord(w, rest);
    assert Hex2Int(0x66) == 15;
  }

  /** What is read back never lags behind by letters f. */
  lemma {:induction false} NoLetters(p: Bytes, d: Bytes)
    requires p != [] && forall i :: 0 <= i < |p| ==> p[i] == 0x66
    ensures d != p + Unescaped(Text(d, true))
    decreases |d|
  {
    hide Escaped, Unescaped, Hex2Int;
    if d != [] && d[0] == 0x66 {
      FirstBack(d);
      NoLetters(p, d[1..]);
      assert p + ([0x66] + Unescaped(Text(d[1..], true))) == [0x66] + (p + Unescaped(Text(d[1..], true)));
    }
  }

  /** A component that starts with a byte from 0x80 on never comes back. */
  lemma HighLost(c: Bytes)
    requires c != [] && c[0] >= 0x80
    ensures Unescaped(Text(c, true)) != c
  {
    hide Escaped, Unescaped, HighTail;
    HighBack(c);
    if c[0] == 0xff {
      NoLetters(HighTail(c[0]), c[1..]);
      assert Unescaped(Text(c, true))[1..] == HighTail(c[0]) + Unescaped(Text(c[1..], true));
    }
  }

  /** The bytes that two digits behind a percent sign may have to be. */
  predicate Telling(p: Bytes) {
    forall i :: 0 <= i < |p| ==> p[i] == PERCENT || p[i] == 0x32 || p[i] == 0x33 || p[i] == 0x35
  }

  lemma TellingDigits(x: Byte, y: Byte)
    requires Telling([Hex2Int(x) * 16 + Hex2Int(y)])
    ensures x != PERCENT && y != PERCENT && Telling([PERCENT, x, y]) && Telling([x, y])
  {
    assert [Hex2Int(x) * 16 + Hex2Int(y)][0] == Hex2Int(x) * 16 + Hex2Int(y);
    assert Hex2Int(x) == 2 || Hex2Int(x) == 3;
  }

  /** Two printed bytes that are no percent signs are two bytes. */
  lemma TwoPlain(d: Bytes)
    requires |Text(d, true)| >= 2 && Text(d, true)[0] != PERCENT && Text(d, true)[1] != PERCENT
    ensures |d| >= 2 && d[..2] == Text(d, true)[..2] && Text(d, true)[2..] == Text(d[2..], true)
  {
    hide Escaped;
    TextCons(d);
    assert d[1..] != [];
    TextCons(d[1..]);
    assert d[1..][1..] == d[2..];
  }

  /** What is read back never runs ahead by such bytes. */
  lemma {:induction false} NoLead(p: Bytes, d: Bytes)
    requires p != [] && Telling(p)
    ensures Unescaped(Text(d, true)) != p + d
    decreases |d|
  {
    hide Escaped, Unescaped, Hex2Int, HighTail;
    if d == [] {
      NothingUnescaped();
    } else if d[0] >= 0x80 {
      HighBack(d);
      assert (p + d)[0] != Unescaped(Text(d, true))[0];
    } else if d[0] == PERCENT && |Text(d[1..], true)| >= 2 {
      var t := Text(d[1..], true);
      PercentTakes(d);
      var v := Hex2Int(t[0]) * 16 + Hex2Int(t[1]);
      assert Unescaped(Text(d, true))[0] == v && Unescaped(Text(d, true))[1..] == Unescaped(t[2..]);
      if p[0] == v {
        TellingDigits(t[0], t[1]);
        TwoPlain(d[1..]);
        assert d == [PERCENT, t[0], t[1]] + d[3..] && d[1..][2..] == d[3..];
        var q := p[1..] + [PERCENT, t[0], t[1]];
        NoLead(q, d[3..]);
        assert (p + d)[1..] == q + d[3..];
      }
    } else {
      FirstBack(d);
      if p[0] == d[0] {
        var q := p[1..] + [d[0]];
        NoLead(q, d[1..]);
        assert (p + d)[1..] == q + d[1..];
        assert Unescaped(Text(d, true))[1..] == Unescaped(Text(d[1..], true));
      }
    }
  }

  lemma PercentTakes(c: Bytes)
    requires c != [] && c[0] == PERCENT && |Text(c[1..], true)| >= 2
    ensures var t := Text(c[1..], true);
            Unescaped(Text(c, true)) == [Hex2Int(t[0]) * 16 + Hex2Int(t[1])] + Unescaped(t[2..])
  {
    hide Escaped, Unescaped, Hex2Int;
    TextCons(c);
    EscapedShape(PERCENT);
    var t := Text(c[1..], true);
    assert Text(c, true) == [PERCENT, t[0], t[1]] + t[2..];
    UnescapedTriple(t[0], t[1], t[2..]);
  }

  /** A percent sign with two printed bytes behind it never comes back. */
  lemma PercentLost(c: Bytes)
    requires c != [] && c[0] == PERCENT && |Text(c[1..], true)| >= 2
    ensures Unescaped(Text(c, true)) != c
  {
    hide Escaped, Unescaped, Hex2Int, Text;
    var t := Text(c[1..], true);
    PercentTakes(c);
    if PERCENT == Hex2Int(t[0]) * 16 + Hex2Int(t[1]) {
      TellingDigits(t[0], t[1]);
      TwoPlain(c[1..]);
      NoLead([t[0], t[1]], c[3..]);
      assert c == [PERCENT] + ([t[0], t[1]] + c[3..]) && c[1..][2..] == c[3..];
    }
  }

  /** A component comes back exactly when it survives. */
  lemma {:induction false} ComponentBackIff(c: Bytes)
    ensures Unescaped(Text(c, true)) == c <==> Survives(c)
    decreases |c|
  {
    hide Escaped, Unescaped, Hex2Int;
    if c == [] {
      NothingUnescaped();
    } else if c[0] >= 0x80 {
      HighLost(c);
    } else if c[0] == PERCENT && |Text(c[1..], true)| >= 2 {
      PercentLost(c);
    } else {
      FirstBack(c);
      ComponentBackIff(c[1..]);
      assert c == [c[0]] + c[1..];
    }
  }

  /** Without percent signs a component survives exactly if all its bytes are below 0x80. */
  lemma {:induction false} PlainSurvives(c: Bytes)
    requires PERCENT !in c
    ensures Survives(c) <==> forall b :: b in c ==> b < 0x80
  {
    hide Text;
    if c != [] {
      assert c[0] in c;
      assert forall b :: b in c <==> b == c[0] || b in c[1..];
      PlainSurvives(c[1..]);
    }
  }

  // ---------------------------------------------------------------- whole names

  /** The printed name without the slash in front. */
  function Joined(cs: seq<Bytes>): Bytes
    requires cs != []
  {
    Text(cs[0], true) + Printed(cs[1..], true)
  }

  lemma {:induction false} NoSlash(c: Bytes)
    ensures SLASH !in Text(c, true)
  {
    if c != [] {
      NoSlash(c[1..]);
    }
  }

  lemma {:induction false} CutAfter(s: Bytes, t: Bytes)
    requires SLASH !in s && (t == [] || t[0] == SLASH)
    ensures Cut(s + t) == |s|
  {
    if s == [] {
      assert s + t == t;
    } else {
      assert (s + t)[1..] == s[1..] + t && s[0] in s;
      CutAfter(s[1..], t);
    }
  }

  /** The pieces of a printed name are the printed components; an empty one at the end is not seen. */
  lemma {:induction false} PiecesBack(cs: seq<Bytes>, room: nat)
    requires cs != []
    ensures Unescapes(Joined(cs), room) ==
            if room == 0 || cs == [[]] then []
            else [Unescaped(Text(cs[0], true))] + if |cs| == 1 then [] else Unescapes(Joined(cs[1..]), room - 1)
    decreases |cs|
  {
    hide Cut, Unescaped, Escaped;
    var t := Joined(cs);
    var head, tail := Text(cs[0], true), Printed(cs[1..], true);
    if |cs| == 1 && cs[0] == [] {
      PiecesEnd(t, room);
    } else if room == 0 {
      PiecesEnd(t, room);
    } else {
      NoSlash(cs[0]);
      CutAfter(head, tail);
      if cs[0] != [] {
        TextCons(cs[0]);
      }
      assert t != [];
      PieceStep(t, room);
      assert t[..|head|] == head;
      if |cs| == 1 {
        PiecesEnd([], room - 1);
      } else {
        assert t[|head| + 1..] == tail[1..] == Joined(cs[1..]);
      }
    }
  }

  predicate AllSurvive(cs: seq<Bytes>) {
    forall c :: c in cs ==> Survives(c)
  }

  lemma {:induction false} NameBackIff(cs: seq<Bytes>, room: nat)
    requires cs != []
    ensures Unescapes(Joined(cs), room) == cs <==> |cs| <= room && cs[|cs| - 1] != [] && AllSurvive(cs)
    decreases |cs|
  {
    hide Unescapes, Joined, Survives;
    PiecesBack(cs, room);
    var rest := cs[1..];
    assert cs == [cs[0]] + rest && cs[0] in cs;
    ComponentBackIff(cs[0]);
    if |cs| == 1 {
      assert AllSurvive(cs) <==> Survives(cs[0]);
      LoneComponent(cs[0]);
    } else {
      assert forall c :: c in rest ==> c in cs;
      assert AllSurvive(cs) <==> Survives(cs[0]) && AllSurvive(rest);
      if room > 0 {
        NameBackIff(rest, room - 1);
      }
    }
  }

  lemma LoneComponent(c: Bytes)
    ensures c != [] ==> Text(c, true) != []
  {
    hide Escaped;
  }

  /** Printed with slashes escaped and read again, a name is the same if and only if it has at most 63
      components, the last one is not empty, no byte is 0x80 or more, and no percent sign in a component has
      two or more printed bytes behind it. */
  lemma UriRoundTripIff(cs: seq<Bytes>)
    requires cs != []
    ensures Components(Printed(cs, true)) == cs <==>
            |cs| <= 63 && cs[|cs| - 1] != [] && AllSurvive(cs)
  {
    hide Unescapes, AllSurvive;
    var p := Printed(cs, true);
    assert p[1..] == Joined(cs);
    NameBackIff(cs, MAX_NAME_COMP - 1);
  }
}
