/** Packing what was read, from any encoder: the frame gets no longer and reads the same. */
module MsgpackNormal {
  import opened Wrappers
  import opened Bytes
  import opened FixedWidth
  import opened Msgpack
  import opened MsgpackRoundTrip

  /** The tree is legible and packs into that many bytes. */
  predicate Fits(utf8: Utf8, t: Tree, size: int) {
    Legible(utf8, t) && Pack(t).Ok? && |Pack(t).value| <= size
  }

  predicate CodesFit(cs: seq<Result<Bytes, CodecError>>, size: int) {
    All(cs).Ok? && |All(cs).value| <= size
  }

  predicate MembersFit(utf8: Utf8, ms: seq<Member>, size: int) {
    && KeysDiffer(ms)
    && (forall i :: 0 <= i < |ms| ==> utf8(ms[i].key) && Legible(utf8, ms[i].value))
    && CodesFit(MemberCodes(ms), size)
  }

  lemma {:induction false} UnsignedBelow(s: Bytes)
    ensures Unsigned(s) < Power(|s|)
    decreases |s|
  {
    if s != [] { UnsignedBelow(s[..|s| - 1]); }
  }

  lemma {:induction false} UintBelow(d: Bytes, width: nat)
    requires ReadUint(d, width).Ok?
    ensures width <= |d|
    ensures ReadUint(d, width).value.0 < Power(width) && |ReadUint(d, width).value.1| + width == |d|
  {
    UnsignedBelow(d[..width]);
  }

  lemma {:induction false} IntWithin(d: Bytes, width: nat)
    requires ReadInt(d, width).Ok?
    ensures width <= |d|
    ensures var n := ReadInt(d, width).value.0; 2 * n + Power(width) >= 0 && 2 * n < Power(width)
    ensures |ReadInt(d, width).value.1| + width == |d|
  {
    UnsignedBelow(d[..width]);
  }

  lemma {:induction false} IntFits(n: int, width: nat)
    requires (width == 1 || width == 2 || width == 4 || width == 8) && n < Power(width)
    requires n >= 0 || 2 * n + Power(width) >= 0
    ensures PackInt(n).Ok? && |PackInt(n).value| <= width + 1
  {
    Powers();
    hide Power, BigEndian;
  }

  lemma {:induction false} SizeFits(n: nat, width: nat)
    requires (width == 1 || width == 2 || width == 4) && n < Power(width)
    ensures StrHeader(n).Ok? && |StrHeader(n).value| <= width + 1
    ensures width > 1 ==> ArrayHeader(n).Ok? && |ArrayHeader(n).value| <= width + 1
    ensures width > 1 ==>
              n <= 0xFFFF_FFFF && forall m: nat :: m <= n ==> MapHeader(m).Ok? && |MapHeader(m).value| <= width + 1
  {
    Powers();
    hide Power, BigEndian;
  }

  /** What a head that carries a number of some width announces. */
  lemma {:induction false} WideFits(d: Bytes, width: nat)
    requires width == 1 || width == 2 || width == 4 || width == 8
    ensures ReadUint(d, width).Ok? ==>
              var r := ReadUint(d, width).value;
              |r.1| + width == |d| && PackInt(r.0).Ok? && |PackInt(r.0).value| <= width + 1
              && (width < 8 ==> StrHeader(r.0).Ok? && |StrHeader(r.0).value| <= width + 1)
              && (1 < width < 8 ==>
                    ArrayHeader(r.0).Ok? && |ArrayHeader(r.0).value| <= width + 1
                    && r.0 <= 0xFFFF_FFFF
                    && forall m: nat :: m <= r.0 ==> MapHeader(m).Ok? && |MapHeader(m).value| <= width + 1)
    ensures ReadInt(d, width).Ok? ==>
              var r := ReadInt(d, width).value;
              |r.1| + width == |d| && PackInt(r.0).Ok? && |PackInt(r.0).value| <= width + 1
  {
    hide PackInt, StrHeader, ArrayHeader, MapHeader, Power, Unsigned, Signed;
    if ReadUint(d, width).Ok? {
      UintBelow(d, width);
      IntFits(ReadUint(d, width).value.0, width);
      if width < 8 { SizeFits(ReadUint(d, width).value.0, width); }
    }
    if ReadInt(d, width).Ok? {
      IntWithin(d, width);
      IntFits(ReadInt(d, width).value.0, width);
    }
  }

  /** The head announces a value, or a count whose shortest header takes no more bytes. */
  predicate HeadWithin(h: Head, used: int) {
    match h
    case Whole(t) => (t.Nil? || t.Bool? || t.Int?) && Pack(t).Ok? && |Pack(t).value| <= used
    case StrOf(n) => StrHeader(n).Ok? && |StrHeader(n).value| <= used
    case ArrOf(n) => ArrayHeader(n).Ok? && |ArrayHeader(n).value| <= used
    case MapOf(n) =>
      n <= 0xFFFF_FFFF
          && forall m: nat :: m <= n ==> MapHeader(m).Ok? && |MapHeader(m).value| <= used
  }

  /** A form of any width takes at least the bytes of the shortest. */
  lemma {:induction false} HeadFits(tag: Byte, d: Bytes)
    requires ReadHead(tag, d).Ok?
    ensures HeadWithin(ReadHead(tag, d).value.0, 1 + |d| - |ReadHead(tag, d).value.1|)
  {
    if tag < 0xCC || tag >= 0xE0 {
      SmallFits(tag);
      hide PackInt, StrHeader, ArrayHeader, MapHeader;
    } else if tag < 0xD9 {
      IntHeadFits(tag, d);
    } else {
      SizeHeadFits(tag, d);
    }
  }

  lemma {:induction false} IntHeadFits(tag: Byte, d: Bytes)
    requires 0xCC <= tag < 0xD9 && ReadHead(tag, d).Ok?
    ensures HeadWithin(ReadHead(tag, d).value.0, 1 + |d| - |ReadHead(tag, d).value.1|)
  {
    WideFits(d, if tag == 0xCC || tag == 0xD0 then 1 else if tag == 0xCD || tag == 0xD1 then 2
                else if tag == 0xCE || tag == 0xD2 then 4 else 8);
    hide ReadUint, ReadInt, PackInt;
  }

  lemma {:induction false} SizeHeadFits(tag: Byte, d: Bytes)
    requires 0xD9 <= tag < 0xE0 && ReadHead(tag, d).Ok?
    ensures HeadWithin(ReadHead(tag, d).value.0, 1 + |d| - |ReadHead(tag, d).value.1|)
  {
    WideFits(d, if tag == 0xD9 then 1 else if tag == 0xDA || tag == 0xDC || tag == 0xDE then 2 else 4);
    hide ReadUint, StrHeader, ArrayHeader, MapHeader;
  }

  /** The forms that are one byte. */
  lemma {:induction false} SmallFits(tag: Byte)
    ensures tag <= 0x7F ==> PackInt(tag) == Ok([tag])
    ensures tag >= 0xE0 ==> PackInt(tag - 0x100) == Ok([tag])
    ensures 0x80 <= tag <= 0x8F ==> forall m: nat :: m <= tag - 0x80 ==> MapHeader(m).Ok? && |MapHeader(m).value| <= 1
    ensures 0x90 <= tag <= 0x9F ==> ArrayHeader(tag - 0x90) == Ok([tag])
    ensures 0xA0 <= tag <= 0xBF ==> StrHeader(tag - 0xA0) == Ok([tag])
  {
  }

  /** Whatever is read is legible and packs into no more bytes than it was read from. */
  lemma {:induction false} ReadFits(utf8: Utf8, d: Bytes)
    requires Read(utf8, d).Ok?
    ensures Fits(utf8, Read(utf8, d).value.0, |d| - |Read(utf8, d).value.1|)
    decreases |d|, 0
  {
    hide ReadHead, ReadItems, ReadMembers, Pack;
    var h := ReadHead(d[0], d[1..]);
    HeadShortens(d[0], d[1..]);
    HeadFits(d[0], d[1..]);
    match h.value.0
    case Whole(_) =>
    case StrOf(n) => assert Pack(Str(h.value.1[..n])) == PackStr(h.value.1[..n]) by { StrPacks(h.value.1[..n]); }
    case ArrOf(n) =>
      ItemsFit(utf8, h.value.1, n);
      PackIs(Read(utf8, d).value.0);
    case MapOf(n) =>
      assert MembersFit(utf8, [], 0);
      ReadMembersFit(utf8, h.value.1, n, [], 0);
      PackIs(Read(utf8, d).value.0);
  }

  lemma {:induction false} StrPacks(s: Bytes)
    ensures Pack(Str(s)) == PackStr(s)
  {
  }

  lemma {:induction false} ItemsFit(utf8: Utf8, d: Bytes, n: nat)
    requires ReadItems(utf8, d, n).Ok?
    ensures var r := ReadItems(utf8, d, n).value;
            |r.0| == n && (forall i :: 0 <= i < n ==> Legible(utf8, r.0[i])) && CodesFit(ItemCodes(r.0), |d| - |r.1|)
    decreases |d|, n + 1
  {
    hide Read, Pack, Legible;
    if n > 0 {
      ReadFits(utf8, d);
      var first := Read(utf8, d).value;
      ItemsFit(utf8, first.1, n - 1);
      var rest := ReadItems(utf8, first.1, n - 1).value.0;
      assert ItemCodes([first.0] + rest)[1..] == ItemCodes(rest);
    }
  }

  lemma {:induction false} ReadMembersFit(utf8: Utf8, d: Bytes, n: nat, ms: seq<Member>, size: int)
    requires ReadMembers(utf8, d, n, ms).Ok? && MembersFit(utf8, ms, size)
    ensures var r := ReadMembers(utf8, d, n, ms).value;
            |r.0| <= |ms| + n && MembersFit(utf8, r.0, size + |d| - |r.1|)
    decreases |d|, n + 1
  {
    hide Read, Pack, Assign, MembersFit, Legible;
    if n > 0 {
      ReadFits(utf8, d);
      var key := Read(utf8, d).value;
      ReadFits(utf8, key.1);
      var value := Read(utf8, key.1).value;
      AssignFits(utf8, ms, key.0.utf8, value.0, size, |d| - |key.1|, |key.1| - |value.1|);
      ReadMembersFit(utf8, value.1, n - 1, Assign(ms, key.0.utf8, value.0), size + |d| - |value.1|);
    }
  }

  lemma {:induction false} TailFits(utf8: Utf8, ms: seq<Member>, size: int)
    requires MembersFit(utf8, ms, size) && ms != []
    ensures MemberCode(ms[0]).Ok? && utf8(ms[0].key) && Legible(utf8, ms[0].value)
    ensures MembersFit(utf8, ms[1..], size - |MemberCode(ms[0]).value|)
    ensures forall i :: 0 <= i < |ms[1..]| ==> ms[1..][i].key != ms[0].key
  {
    hide Legible, MemberCode;
    assert MemberCodes(ms)[1..] == MemberCodes(ms[1..]);
  }

  lemma {:induction false} ConsFits(utf8: Utf8, m: Member, ms: seq<Member>, a: int, size: int)
    requires utf8(m.key) && Legible(utf8, m.value) && MemberCode(m).Ok? && |MemberCode(m).value| <= a
    requires MembersFit(utf8, ms, size) && forall i :: 0 <= i < |ms| ==> ms[i].key != m.key
    ensures MembersFit(utf8, [m] + ms, a + size)
  {
    hide Legible, MemberCode;
    assert MemberCodes([m] + ms)[1..] == MemberCodes(ms);
  }

  lemma {:induction false} MemberFits(utf8: Utf8, k: Bytes, v: Tree, a: int, b: int)
    requires Fits(utf8, Str(k), a) && Fits(utf8, v, b)
    ensures utf8(k) && Legible(utf8, v)
    ensures MemberCode(Member(k, v)).Ok? && |MemberCode(Member(k, v)).value| <= a + b
  {
    StrPacks(k);
    assert Legible(utf8, Str(k));
    hide Pack, PackStr;
  }

  /** Assigning adds at most the new key and value; an old value under the key is gone. */
  lemma {:induction false} AssignFits(utf8: Utf8, ms: seq<Member>, k: Bytes, v: Tree, size: int, a: int, b: int)
    requires MembersFit(utf8, ms, size) && Fits(utf8, Str(k), a) && Fits(utf8, v, b)
    ensures |Assign(ms, k, v)| <= |ms| + 1 && MembersFit(utf8, Assign(ms, k, v), size + a + b)
    decreases |ms|
  {
    hide Pack, Legible, MembersFit, PackStr, MemberCode, Fits;
    MemberFits(utf8, k, v, a, b);
    var m := Member(k, v);
    if ms == [] {
      assert [m] + ms == [m];
      ConsFits(utf8, m, ms, a + b, size);
    } else {
      TailFits(utf8, ms, size);
      var c := |MemberCode(ms[0]).value|;
      if ms[0].key == k {
        ConsFits(utf8, m, ms[1..], a + b, size - c);
        FitsMore(utf8, [m] + ms[1..], size + a + b - c, size + a + b);
      } else {
        AssignFits(utf8, ms[1..], k, v, size - c, a, b);
        AssignMisses(ms[1..], k, v, ms[0].key);
        ConsFits(utf8, ms[0], Assign(ms[1..], k, v), c, size - c + a + b);
      }
    }
  }

  /** Assigning brings in no key but the assigned one. */
  lemma {:induction false} AssignMisses(ms: seq<Member>, k: Bytes, v: Tree, x: Bytes)
    requires x != k && forall i :: 0 <= i < |ms| ==> ms[i].key != x
    ensures forall i :: 0 <= i < |Assign(ms, k, v)| ==> Assign(ms, k, v)[i].key != x
    decreases |ms|
  {
    if ms != [] { AssignMisses(ms[1..], k, v, x); }
  }

  lemma {:induction false} FitsMore(utf8: Utf8, ms: seq<Member>, a: int, b: int)
    requires MembersFit(utf8, ms, a) && a <= b
    ensures MembersFit(utf8, ms, b)
  {
  }

  /** Any frame that is accepted, whoever wrote it: its tree packs, into no more bytes, and
      the packed frame reads back as the same tree. */
  lemma {:induction false} Normalises(utf8: Utf8, d: Bytes)
    requires Unpacked(utf8, d).Ok?
    ensures var t := Unpacked(utf8, d).value;
            Pack(t).Ok? && |Pack(t).value| <= |d| && Unpacked(utf8, Pack(t).value) == Ok(t)
  {
    hide Read, Pack, Legible;
    ReadFits(utf8, d);
    RoundTrip(utf8, Unpacked(utf8, d).value);
  }
}
