/**
 Fields of NDN packets that this code reads but does not write, wherever they lie in a packet.
 */
module NdnFields {
  import opened Base
  import opened Tlv
  import opened Ndn
  import opened NdnRead
  import opened NdnRoundTrip

  /** The suffix window of an Interest is read number by number. */
  lemma SuffixesBack(b: Bytes, at: nat, end: nat, p: Pkt, min: U64, max: U64)
    requires var w := Block(SELECTORS, Block(MIN_SUFFIX, NonNeg(min)) + Block(MAX_SUFFIX, NonNeg(max)));
             LiesAt(b, at, w) && at + |w| <= end <= |b|
    ensures var w := Block(SELECTORS, Block(MIN_SUFFIX, NonNeg(min)) + Block(MAX_SUFFIX, NonNeg(max)));
            Fields(b, at, end, p) == Fields(b, at + |w|, end, p.(minSuffix := min, maxSuffix := max))
  {
    hide Block, Fields, Dehead, ReadNum, NonNeg, LiesAt;
    var w1, w2 := Block(MIN_SUFFIX, NonNeg(min)), Block(MAX_SUFFIX, NonNeg(max));
    NonNegSize(min);
    NonNegSize(max);
    BlockSize(MIN_SUFFIX, NonNeg(min));
    BlockSize(MAX_SUFFIX, NonNeg(max));
    BlockSize(SELECTORS, w1 + w2);
    FieldStep(b, at, end, p, SELECTORS, w1 + w2);
    var pos := at + 2;
    var stop := pos + |w1 + w2|;
    LiesApart(b, pos, w1, w2);
    BlockBack(b, pos, stop, MIN_SUFFIX, NonNeg(min));
    NonNegBack(b, pos + 2, min);
    BlockBack(b, pos + |w1|, stop, MAX_SUFFIX, NonNeg(max));
    NonNegBack(b, pos + |w1| + 2, max);
    var p1 := p.(minSuffix := min);
    assert SelectorsFrom(b, pos, stop, p) == SelectorsFrom(b, pos + |w1|, stop, p1);
    assert SelectorsFrom(b, pos + |w1|, stop, p1) == SelectorsFrom(b, stop, stop, p1.(maxSuffix := max));
    SelectorsEnd(b, stop, p1.(maxSuffix := max));
  }

  /** A fragment: its 16 bits of flags and number, and its piece of the packet. */
  function FragmentBytes(bits: nat, piece: Bytes): Bytes {
    Block(NDNLP, Block(FRAG_FIELDS, BigEndian(bits, 2)) + Block(NDNLP_FRAGMENT, piece))
  }

  /** Number, first and last flag and piece of a fragment are read as they were written. */
  lemma FragmentRoundTrip(bits: nat, piece: Bytes)
    requires bits < 0x1_0000 && |piece| <= 0xffff
    ensures Parse(FragmentBytes(bits, piece)) ==
            Some((NDNLP, Blank().(finalBlock := bits % 0x4000, begins := (bits / 0x4000) % 2 == 1,
                                  closes := bits >= 0x8000, content := Some(piece))))
  {
    hide Block, Fields, Dehead, ReadNum, BigEndian, LiesAt;
    var w1, w2 := Block(FRAG_FIELDS, BigEndian(bits, 2)), Block(NDNLP_FRAGMENT, piece);
    var v := w1 + w2;
    var b := Block(NDNLP, v);
    BlockSize(FRAG_FIELDS, BigEndian(bits, 2));
    ShortBlock(NDNLP_FRAGMENT, piece);
    WholeLies(b);
    BlockBack(b, 0, |b|, NDNLP, v);
    var pos := |b| - |v|;
    LiesApart(b, pos, w1, w2);
    FieldStep(b, pos, |b|, Blank(), FRAG_FIELDS, BigEndian(bits, 2));
    PowerEight();
    LiesMeans(b, pos + 2, BigEndian(bits, 2));
    ReadBigEndian(b, pos + 2, bits, 2);
    var p := Blank().(finalBlock := bits % 0x4000, begins := (bits / 0x4000) % 2 == 1, closes := bits >= 0x8000);
    FieldStep(b, pos + 4, |b|, p, NDNLP_FRAGMENT, piece);
    LiesMeans(b, |b| - |piece|, piece);
    FieldsEnd(b, |b|, p.(content := Some(piece)));
  }

  lemma ShortBlock(typ: nat, v: Bytes)
    requires typ < 253 && |v| <= 0xffff
    ensures |v| < |Block(typ, v)| <= |v| + 4
  {
  }

  /** A field whose type means nothing here is passed over. */
  lemma OtherFieldSkipped(b: Bytes, at: nat, end: nat, p: Pkt, typ: nat, v: Bytes)
    requires LiesAt(b, at, Block(typ, v)) && at + |Block(typ, v)| <= end <= |b| && typ < TWO32 && |v| < TWO32
    requires typ !in {NAME, SELECTORS, NONCE, SCOPE, CONTENT, NDNLP_FRAGMENT, META_INFO, INTEREST_LIFETIME, FRAG_FIELDS}
    ensures Fields(b, at, end, p) == Fields(b, at + |Block(typ, v)|, end, p)
  {
    hide Block, Fields, LiesAt;
    FieldStep(b, at, end, p, typ, v);
  }

  /** So are selectors, parts of a name and metadata of other types. */
  lemma OthersSkipped(b: Bytes, at: nat, end: nat, typ: nat, v: Bytes)
    requires LiesAt(b, at, Block(typ, v)) && at + |Block(typ, v)| <= end <= |b| && typ < TWO32 && |v| < TWO32
    ensures var next := at + |Block(typ, v)|;
            && (typ !in {MIN_SUFFIX, MAX_SUFFIX, MUST_BE_FRESH} ==>
                  forall p :: SelectorsFrom(b, at, end, p) == SelectorsFrom(b, next, end, p))
            && (typ != NAME_COMPONENT ==>
                  forall cs, chunk :: NameFrom(b, at, end, cs, chunk) == NameFrom(b, next, end, cs, chunk))
            && (typ !in {FRESHNESS_PERIOD, FINAL_BLOCK_ID} ==>
                  forall p :: MetaFrom(b, at, end, p) == MetaFrom(b, next, end, p))
  {
    hide Block, Dehead, ReadNum, LiesAt;
    BlockBack(b, at, end, typ, v);
  }

  /** A second name is refused. */
  lemma SecondNameRefused(b: Bytes, at: nat, end: nat, p: Pkt, v: Bytes)
    requires LiesAt(b, at, Block(NAME, v)) && at + |Block(NAME, v)| <= end <= |b| && |v| < TWO32 && p.named
    ensures Fields(b, at, end, p) == None
  {
    hide Block, Fields, LiesAt;
    FieldStep(b, at, end, p, NAME, v);
  }

  /** Scope and lifetime are read in 64 bits. */
  lemma NumberBack(b: Bytes, at: nat, end: nat, p: Pkt, v: U64)
    ensures LiesAt(b, at, Block(SCOPE, NonNeg(v))) && at + |Block(SCOPE, NonNeg(v))| <= end <= |b| ==>
              Fields(b, at, end, p) == Fields(b, at + |Block(SCOPE, NonNeg(v))|, end, p.(scope := v))
    ensures LiesAt(b, at, Block(INTEREST_LIFETIME, NonNeg(v)))
            && at + |Block(INTEREST_LIFETIME, NonNeg(v))| <= end <= |b| ==>
              Fields(b, at, end, p) == Fields(b, at + |Block(INTEREST_LIFETIME, NonNeg(v))|, end, p.(lifetime := v))
  {
    hide Block, Fields, NonNeg, ReadNum, LiesAt;
    NonNegSize(v);
    var w := NonNeg(v);
    BlockSize(SCOPE, w);
    BlockSize(INTEREST_LIFETIME, w);
    if LiesAt(b, at, Block(SCOPE, w)) && at + |Block(SCOPE, w)| <= end <= |b| {
      FieldStep(b, at, end, p, SCOPE, w);
      NonNegBack(b, at + 2, v);
    }
    if LiesAt(b, at, Block(INTEREST_LIFETIME, w)) && at + |Block(INTEREST_LIFETIME, w)| <= end <= |b| {
      FieldStep(b, at, end, p, INTEREST_LIFETIME, w);
      NonNegBack(b, at + 2, v);
    }
  }

  /** Payload, be it content or a piece of a packet, and nonce: the last one counts. */
  lemma BlobsBack(b: Bytes, at: nat, end: nat, p: Pkt, typ: nat, v: Bytes)
    requires LiesAt(b, at, Block(typ, v)) && at + |Block(typ, v)| <= end <= |b| && |v| < TWO32
    requires typ in {CONTENT, NDNLP_FRAGMENT, NONCE}
    ensures Fields(b, at, end, p) == Fields(b, at + |Block(typ, v)|, end,
              if typ == NONCE then p.(nonce := Some(v)) else p.(content := Some(v)))
  {
    hide Block, Fields, LiesAt;
    BlockLonger(typ, v);
    FieldStep(b, at, end, p, typ, v);
    LiesMeans(b, at + |Block(typ, v)| - |v|, v);
  }

  /** A flag of a fragment once raised stays up. */
  lemma FragFieldsBack(b: Bytes, at: nat, end: nat, p: Pkt, bits: nat)
    requires bits < 0x1_0000 && LiesAt(b, at, Block(FRAG_FIELDS, BigEndian(bits, 2))) && at + 4 <= end <= |b|
    ensures Fields(b, at, end, p) == Fields(b, at + 4, end,
              p.(finalBlock := bits % 0x4000, begins := p.begins || (bits / 0x4000) % 2 == 1,
                 closes := p.closes || bits >= 0x8000))
  {
    hide Block, Fields, Dehead, ReadNum, BigEndian, LiesAt;
    BlockSize(FRAG_FIELDS, BigEndian(bits, 2));
    FieldStep(b, at, end, p, FRAG_FIELDS, BigEndian(bits, 2));
    PowerEight();
    LiesMeans(b, at + 2, BigEndian(bits, 2));
    ReadBigEndian(b, at + 2, bits, 2);
  }

  /** A final block is a number below 2^63 behind a marker; a larger one is refused, and anything that is not a
      name component is passed over. */
  lemma FinalBlockBack(b: Bytes, at: nat, end: nat, p: Pkt, v: U64)
    requires var w := Block(FINAL_BLOCK_ID, Block(NAME_COMPONENT, Marked(v)));
             LiesAt(b, at, w) && at + |w| <= end <= |b|
    ensures var w := Block(FINAL_BLOCK_ID, Block(NAME_COMPONENT, Marked(v)));
            MetaFrom(b, at, end, p) ==
            if v >= 0x8000_0000_0000_0000 then None else MetaFrom(b, at + |w|, end, p.(finalBlock := v))
  {
    hide Block, Dehead, Marked, ReadNum, LiesAt;
    var c := Marked(v);
    var inner := Block(NAME_COMPONENT, c);
    MarkedSize(v);
    BlockSize(NAME_COMPONENT, c);
    BlockSize(FINAL_BLOCK_ID, inner);
    BlockBack(b, at, end, FINAL_BLOCK_ID, inner);
    BlockBack(b, at + 2, end, NAME_COMPONENT, c);
    MarkedBack(b, at + 4, v);
  }

  lemma FinalBlockSkipped(b: Bytes, at: nat, end: nat, p: Pkt, typ: nat, v: Bytes)
    requires typ != NAME_COMPONENT && typ < 253 && |v| < 200
    requires var w := Block(FINAL_BLOCK_ID, Block(typ, v)); LiesAt(b, at, w) && at + |w| <= end <= |b|
    ensures var w := Block(FINAL_BLOCK_ID, Block(typ, v)); MetaFrom(b, at, end, p) == MetaFrom(b, at + |w|, end, p)
  {
    hide Block, Dehead, ReadNum, LiesAt;
    var inner := Block(typ, v);
    BlockSize(typ, v);
    BlockSize(FINAL_BLOCK_ID, inner);
    BlockBack(b, at, end, FINAL_BLOCK_ID, inner);
    BlockBack(b, at + 2, end, typ, v);
  }

  lemma FreshnessBack(b: Bytes, at: nat, end: nat, p: Pkt, v: U64)
    requires var w := Block(FRESHNESS_PERIOD, NonNeg(v)); LiesAt(b, at, w) && at + |w| <= end <= |b|
    ensures MetaFrom(b, at, end, p) ==
            MetaFrom(b, at + |Block(FRESHNESS_PERIOD, NonNeg(v))|, end, p.(freshness := v))
  {
    hide Block, Dehead, NonNeg, ReadNum, LiesAt;
    NonNegSize(v);
    BlockSize(FRESHNESS_PERIOD, NonNeg(v));
    BlockBack(b, at, end, FRESHNESS_PERIOD, NonNeg(v));
    NonNegBack(b, at + 2, v);
  }

  lemma MustBeFreshBack(b: Bytes, at: nat, end: nat, p: Pkt, v: Bytes)
    requires LiesAt(b, at, Block(MUST_BE_FRESH, v)) && at + |Block(MUST_BE_FRESH, v)| <= end <= |b| && |v| < TWO32
    ensures SelectorsFrom(b, at, end, p) ==
            SelectorsFrom(b, at + |Block(MUST_BE_FRESH, v)|, end, p.(mustBeFresh := true))
  {
    hide Block, Dehead, ReadNum, LiesAt;
    BlockBack(b, at, end, MUST_BE_FRESH, v);
  }

  /** Only Interests, Data and fragments are packets. */
  lemma OtherPacketRefused(typ: nat, v: Bytes)
    requires typ < TWO32 && |v| < TWO32
    ensures Parse(Block(typ, v)).Some? ==> typ == 5 || typ == 6 || typ == 0x64
  {
    hide Block, Fields, Dehead, LiesAt;
    WholeLies(Block(typ, v));
    BlockBack(Block(typ, v), 0, |Block(typ, v)|, typ, v);
  }
}
