/** Reading back what was packed. */
module MsgpackRoundTrip {
  import opened Wrappers
  import opened Bytes
  import opened FixedWidth
  import opened Msgpack

  predicate KeysDiffer(members: seq<Member>) {
    forall i, j :: 0 <= i < j < |members| ==> members[i].key != members[j].key
  }

  /** Every string is valid UTF-8 and no dictionary repeats a key. */
  predicate Legible(utf8: Utf8, t: Tree) {
    match t
    case Str(s) => utf8(s)
    case Arr(items) => forall i :: 0 <= i < |items| ==> Legible(utf8, items[i])
    case Map(members) =>
      KeysDiffer(members) && forall i :: 0 <= i < |members| ==> utf8(members[i].key) && Legible(utf8, members[i].value)
    case _ => true
  }

  lemma {:induction false} TakeFront(a: Bytes, b: Bytes)
    ensures Take(a + b, |a|) == Ok((a, b))
  {
    assert (a + b)[..|a|] == a && (a + b)[|a|..] == b;
  }

  lemma {:induction false} UintReads(n: nat, width: nat, rest: Bytes)
    requires n < Power(width)
    ensures ReadUint(BigEndian(n, width) + rest, width) == Ok((n, rest))
  {
    TakeFront(BigEndian(n, width), rest);
    BigEndianReads(n, width);
  }

  lemma {:induction false} NegativeReads(n: int, width: nat, rest: Bytes)
    requires width > 0 && 2 * n + Power(width) >= 0 && n < 0
    ensures ReadInt(BigEndian(n + Power(width), width) + rest, width) == Ok((n, rest))
  {
    TakeFront(BigEndian(n + Power(width), width), rest);
    BigEndianReads(n + Power(width), width);
  }

  lemma {:induction false} FrontTag(tag: Byte, body: Bytes, rest: Bytes)
    ensures ([tag] + body + rest)[0] == tag && ([tag] + body + rest)[1..] == body + rest
  {
  }

  /** Reading the front of a packed integer gives the integer back. */
  lemma {:induction false} IntHeadReads(n: int, rest: Bytes)
    requires PackInt(n).Ok?
    ensures var s := PackInt(n).value + rest; s != [] && ReadHead(s[0], s[1..]) == Ok((Whole(Int(n)), rest))
  {
    Powers();
    hide Power, BigEndian, Signed;
    if n >= 0 {
      if n < 0x80 {
        FrontTag(n, [], rest);
        assert [n] + [] + rest == [n] + rest && [] + rest == rest;
      } else if n <= 0xFF {
        FrontTag(0xCC, BigEndian(n, 1), rest);
        UintReads(n, 1, rest);
      } else if n <= 0xFFFF {
        FrontTag(0xCD, BigEndian(n, 2), rest);
        UintReads(n, 2, rest);
      } else if n <= 0xFFFF_FFFF {
        FrontTag(0xCE, BigEndian(n, 4), rest);
        UintReads(n, 4, rest);
      } else {
        FrontTag(0xCF, BigEndian(n, 8), rest);
        UintReads(n, 8, rest);
      }
    } else {
      if n >= -0x20 {
        FrontTag(0x100 + n, [], rest);
        assert [0x100 + n] + [] + rest == [0x100 + n] + rest && [] + rest == rest;
      } else if n >= -0x80 {
        FrontTag(0xD0, BigEndian(n + 0x100, 1), rest);
        NegativeReads(n, 1, rest);
      } else if n >= -0x8000 {
        FrontTag(0xD1, BigEndian(n + 0x1_0000, 2), rest);
        NegativeReads(n, 2, rest);
      } else if n >= -0x8000_0000 {
        FrontTag(0xD2, BigEndian(n + 0x1_0000_0000, 4), rest);
        NegativeReads(n, 4, rest);
      } else {
        FrontTag(0xD3, BigEndian(n + 0x1_0000_0000_0000_0000, 8), rest);
        NegativeReads(n, 8, rest);
      }
    }
  }

  lemma {:induction false} StrHeadReads(size: nat, rest: Bytes)
    requires StrHeader(size).Ok?
    ensures var s := StrHeader(size).value + rest; s != [] && ReadHead(s[0], s[1..]) == Ok((StrOf(size), rest))
  {
    Powers();
    hide Power, BigEndian;
    if size < 0x20 {
      assert [0xA0 + size] + rest == [0xA0 + size] + [] + rest;
      FrontTag(0xA0 + size, [], rest);
      assert [] + rest == rest;
    } else if size <= 0xFF {
      FrontTag(0xD9, BigEndian(size, 1), rest);
      UintReads(size, 1, rest);
    } else if size <= 0xFFFF {
      FrontTag(0xDA, BigEndian(size, 2), rest);
      UintReads(size, 2, rest);
    } else {
      FrontTag(0xDB, BigEndian(size, 4), rest);
      UintReads(size, 4, rest);
    }
  }

  lemma {:induction false} ArrayHeadReads(size: nat, rest: Bytes)
    requires ArrayHeader(size).Ok?
    ensures var s := ArrayHeader(size).value + rest; s != [] && ReadHead(s[0], s[1..]) == Ok((ArrOf(size), rest))
  {
    Powers();
    hide Power, BigEndian;
    if size < 0x10 {
      assert [0x90 + size] + rest == [0x90 + size] + [] + rest;
      FrontTag(0x90 + size, [], rest);
      assert [] + rest == rest;
    } else if size <= 0xFFFF {
      FrontTag(0xDC, BigEndian(size, 2), rest);
      UintReads(size, 2, rest);
    } else {
      FrontTag(0xDD, BigEndian(size, 4), rest);
      UintReads(size, 4, rest);
    }
  }

  lemma {:induction false} MapHeadReads(size: nat, rest: Bytes)
    requires MapHeader(size).Ok?
    ensures var s := MapHeader(size).value + rest; s != [] && ReadHead(s[0], s[1..]) == Ok((MapOf(size), rest))
  {
    Powers();
    hide Power, BigEndian;
    if size < 0x10 {
      assert [0x80 + size] + rest == [0x80 + size] + [] + rest;
      FrontTag(0x80 + size, [], rest);
      assert [] + rest == rest;
    } else if size <= 0xFFFF {
      FrontTag(0xDE, BigEndian(size, 2), rest);
      UintReads(size, 2, rest);
    } else {
      FrontTag(0xDF, BigEndian(size, 4), rest);
      UintReads(size, 4, rest);
    }
  }

  lemma {:induction false} StrReads(utf8: Utf8, s: Bytes, rest: Bytes)
    requires PackStr(s).Ok? && utf8(s)
    ensures Read(utf8, PackStr(s).value + rest) == Ok((Str(s), rest))
  {
    hide StrHeader, ReadHead;
    var h := StrHeader(|s|).value;
    assert PackStr(s).value + rest == h + (s + rest);
    StrHeadReads(|s|, s + rest);
    TakeFront(s, rest);
  }

  lemma {:induction false} AssignNew(members: seq<Member>, key: Bytes, value: Tree)
    requires forall i :: 0 <= i < |members| ==> members[i].key != key
    ensures Assign(members, key, value) == members + [Member(key, value)]
    decreases |members|
  {
    if members != [] {
      AssignNew(members[1..], key, value);
      assert members == [members[0]] + members[1..];
    }
  }

  /** Round trip with anything behind: a packed tree is read back whole, and nothing more. */
  lemma {:induction false} PackReads(utf8: Utf8, t: Tree, rest: Bytes)
    requires Pack(t).Ok? && Legible(utf8, t)
    ensures Read(utf8, Pack(t).value + rest) == Ok((t, rest))
    decreases t, 2, 0
  {
    match t
    case Int(n) =>
      hide ReadHead;
      IntHeadReads(n, rest);
    case Str(s) => StrReads(utf8, s, rest);
    case Arr(items) => ArrReads(utf8, t, rest);
    case Map(members) => MapReads(utf8, t, rest);
    case Nil => assert ([0xC0] + rest)[1..] == rest;
    case Bool(on) => assert ([if on then 0xC3 else 0xC2] + rest)[1..] == rest;
    case _ => assert false;
  }

  lemma {:induction false} ArrReads(utf8: Utf8, t: Tree, rest: Bytes)
    requires t.Arr? && Pack(t).Ok? && Legible(utf8, t)
    ensures Read(utf8, Pack(t).value + rest) == Ok((t, rest))
    decreases t, 1, 0
  {
    PackIs(t);
    hide ReadHead, Pack, ArrayHeader, ReadItems, Legible;
    var body := All(ItemCodes(t.items)).value;
    assert Pack(t).value + rest == ArrayHeader(|t.items|).value + (body + rest);
    ArrayHeadReads(|t.items|, body + rest);
    assert ItemCodes(t.items)[0..] == ItemCodes(t.items) && t.items[0..] == t.items;
    ItemsRead(utf8, t, 0, rest);
  }

  lemma {:induction false} MapReads(utf8: Utf8, t: Tree, rest: Bytes)
    requires t.Map? && Pack(t).Ok? && Legible(utf8, t)
    ensures Read(utf8, Pack(t).value + rest) == Ok((t, rest))
    decreases t, 1, 0
  {
    PackIs(t);
    hide ReadHead, Pack, MapHeader, ReadMembers, Legible;
    var body := All(MemberCodes(t.members)).value;
    assert Pack(t).value + rest == MapHeader(|t.members|).value + (body + rest);
    MapHeadReads(|t.members|, body + rest);
    assert MemberCodes(t.members)[0..] == MemberCodes(t.members) && t.members[..0] == [];
    MembersRead(utf8, t, 0, rest);
  }

  lemma {:induction false} ItemsRead(utf8: Utf8, t: Tree, i: nat, rest: Bytes)
    requires t.Arr? && i <= |t.items| && Legible(utf8, t) && All(ItemCodes(t.items)[i..]).Ok?
    ensures ReadItems(utf8, All(ItemCodes(t.items)[i..]).value + rest, |t.items| - i) == Ok((t.items[i..], rest))
    decreases t, 0, |t.items| - i
  {
    hide Pack, Read;
    var codes := ItemCodes(t.items)[i..];
    if i < |t.items| {
      assert codes[0] == Pack(t.items[i]) && codes[1..] == ItemCodes(t.items)[i + 1..];
      var more := All(codes[1..]).value;
      assert All(codes).value + rest == Pack(t.items[i]).value + (more + rest);
      PackReads(utf8, t.items[i], more + rest);
      ItemsRead(utf8, t, i + 1, rest);
      assert t.items[i..] == [t.items[i]] + t.items[i + 1..];
    } else {
      assert [] + rest == rest;
    }
  }

  lemma {:induction false} MembersRead(utf8: Utf8, t: Tree, i: nat, rest: Bytes)
    requires t.Map? && i <= |t.members| && Legible(utf8, t) && All(MemberCodes(t.members)[i..]).Ok?
    ensures ReadMembers(utf8, All(MemberCodes(t.members)[i..]).value + rest, |t.members| - i, t.members[..i])
        == Ok((t.members, rest))
    decreases t, 0, |t.members| - i
  {
    hide Pack, Read, PackStr, Assign;
    var codes := MemberCodes(t.members)[i..];
    if i < |t.members| {
      var m := t.members[i];
      assert codes[0] == MemberCode(m) && codes[1..] == MemberCodes(t.members)[i + 1..];
      var more := All(codes[1..]).value;
      assert All(codes).value + rest == PackStr(m.key).value + (Pack(m.value).value + (more + rest));
      StrReads(utf8, m.key, Pack(m.value).value + (more + rest));
      PackReads(utf8, m.value, more + rest);
      AssignNew(t.members[..i], m.key, m.value);
      assert t.members[..i] + [m] == t.members[..i + 1];
      MembersRead(utf8, t, i + 1, rest);
    } else {
      assert [] + rest == rest && t.members[..i] == t.members;
    }
  }

  /** `msgpack_unpack(msgpack_pack(t)) == t`. */
  lemma {:induction false} RoundTrip(utf8: Utf8, t: Tree)
    requires Pack(t).Ok? && Legible(utf8, t)
    ensures Unpacked(utf8, Pack(t).value) == Ok(t)
  {
    hide Pack, Read;
    PackReads(utf8, t, []);
    assert Pack(t).value + [] == Pack(t).value;
  }

  /** Anything appended to a frame is refused. */
  lemma {:induction false} TrailingRefused(utf8: Utf8, t: Tree, extra: Bytes)
    requires Pack(t).Ok? && Legible(utf8, t) && extra != []
    ensures Unpacked(utf8, Pack(t).value + extra) == Err(TrailingBytes)
  {
    hide Pack, Read;
    PackReads(utf8, t, extra);
  }

  // ----- any frame, not only ours -----

  lemma {:induction false} TakeStays(d: Bytes, n: nat, x: Bytes)
    requires n <= |d|
    ensures Take(d + x, n) == Ok((d[..n], d[n..] + x))
  {
    assert (d + x)[..n] == d[..n] && (d + x)[n..] == d[n..] + x;
  }

  lemma {:induction false} HeadStays(tag: Byte, d: Bytes, x: Bytes)
    requires ReadHead(tag, d).Ok?
    ensures ReadHead(tag, d + x) == Ok((ReadHead(tag, d).value.0, ReadHead(tag, d).value.1 + x))
  {
    hide Unsigned, Signed;
    if |d| >= 1 { TakeStays(d, 1, x); }
    if |d| >= 2 { TakeStays(d, 2, x); }
    if |d| >= 4 { TakeStays(d, 4, x); }
    if |d| >= 8 { TakeStays(d, 8, x); }
  }

  /** A frame ends where it ends: what follows it changes neither the tree nor the rest. */
  lemma {:induction false} ReadStays(utf8: Utf8, d: Bytes, x: Bytes)
    requires Read(utf8, d).Ok?
    ensures Read(utf8, d + x) == Ok((Read(utf8, d).value.0, Read(utf8, d).value.1 + x))
    decreases |d|, 0
  {
    hide ReadHead, ReadItems, ReadMembers;
    var h := ReadHead(d[0], d[1..]);
    HeadShortens(d[0], d[1..]);
    HeadStays(d[0], d[1..], x);
    assert (d + x)[0] == d[0] && (d + x)[1..] == d[1..] + x;
    match h.value.0
    case Whole(_) =>
    case StrOf(n) => TakeStays(h.value.1, n, x);
    case ArrOf(n) => ItemsStay(utf8, h.value.1, n, x);
    case MapOf(n) => MembersStay(utf8, h.value.1, n, [], x);
  }

  lemma {:induction false} ItemsStay(utf8: Utf8, d: Bytes, n: nat, x: Bytes)
    requires ReadItems(utf8, d, n).Ok?
    ensures ReadItems(utf8, d + x, n) == Ok((ReadItems(utf8, d, n).value.0, ReadItems(utf8, d, n).value.1 + x))
    decreases |d|, n + 1
  {
    hide Read;
    if n > 0 {
      ReadStays(utf8, d, x);
      ItemsStay(utf8, Read(utf8, d).value.1, n - 1, x);
    }
  }

  lemma {:induction false} MembersStay(utf8: Utf8, d: Bytes, n: nat, ms: seq<Member>, x: Bytes)
    requires ReadMembers(utf8, d, n, ms).Ok?
    ensures ReadMembers(utf8, d + x, n, ms)
        == Ok((ReadMembers(utf8, d, n, ms).value.0, ReadMembers(utf8, d, n, ms).value.1 + x))
    decreases |d|, n + 1
  {
    hide Read, Assign;
    if n > 0 {
      ReadStays(utf8, d, x);
      var key := Read(utf8, d).value;
      ReadStays(utf8, key.1, x);
      var value := Read(utf8, key.1).value;
      MembersStay(utf8, value.1, n - 1, Assign(ms, key.0.utf8, value.0), x);
    }
  }

  /** No frame is a proper beginning of another. */
  lemma {:induction false} FramesPrefixFree(utf8: Utf8, d: Bytes, x: Bytes)
    requires Unpacked(utf8, d).Ok? && Unpacked(utf8, d + x).Ok?
    ensures x == []
  {
    hide Read;
    ReadStays(utf8, d, x);
  }

  // ----- what can be packed -----

  /** Integers of 64 bits, lengths of 32, no raw bytes and no floating point. */
  predicate Encodable(t: Tree) {
    match t
    case Int(n) => -0x8000_0000_0000_0000 <= n <= 0xFFFF_FFFF_FFFF_FFFF
    case Str(s) => |s| <= 0xFFFF_FFFF
    case Arr(items) => |items| <= 0xFFFF_FFFF && forall i :: 0 <= i < |items| ==> Encodable(items[i])
    case Map(members) =>
      && |members| <= 0xFFFF_FFFF
      && forall i :: 0 <= i < |members| ==> |members[i].key| <= 0xFFFF_FFFF && Encodable(members[i].value)
    case Raw(_) => false
    case Floating => false
    case _ => true
  }

  lemma {:induction false} AllOkIff(rs: seq<Result<Bytes, CodecError>>)
    ensures All(rs).Ok? <==> forall i :: 0 <= i < |rs| ==> rs[i].Ok?
    decreases |rs|
  {
    if rs != [] {
      AllOkIff(rs[1..]);
      assert forall i :: 0 < i < |rs| ==> rs[i] == rs[1..][i - 1];
      assert forall i :: 0 <= i < |rs| - 1 ==> rs[1..][i] == rs[i + 1];
    }
  }

  /** Packing succeeds exactly on encodable trees. */
  lemma {:induction false} PacksIff(t: Tree)
    ensures Pack(t).Ok? <==> Encodable(t)
    decreases t
  {
    match t
    case Arr(items) =>
      PackIs(t);
      forall i | 0 <= i < |items| ensures ItemCodes(items)[i].Ok? <==> Encodable(items[i]) { PacksIff(items[i]); }
      hide Pack, ArrayHeader;
      AllOkIff(ItemCodes(items));
      ArrayHeaderIff(|items|);
      assert |ItemCodes(items)| == |items|;
    case Map(members) =>
      PackIs(t);
      forall i | 0 <= i < |members|
        ensures MemberCodes(members)[i].Ok? <==> |members[i].key| <= 0xFFFF_FFFF && Encodable(members[i].value)
      {
        PacksIff(members[i].value);
      }
      hide Pack, MapHeader, MemberCode;
      AllOkIff(MemberCodes(members));
      MapHeaderIff(|members|);
      assert |MemberCodes(members)| == |members|;
    case _ =>
  }

  lemma {:induction false} ArrayHeaderIff(size: nat)
    ensures ArrayHeader(size).Ok? <==> size <= 0xFFFF_FFFF
  {
  }

  lemma {:induction false} MapHeaderIff(size: nat)
    ensures MapHeader(size).Ok? <==> size <= 0xFFFF_FFFF
  {
  }
}
