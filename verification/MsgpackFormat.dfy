/** The first bytes of MessagePack values against the table of its specification. */
module MsgpackFormat {
  import opened Wrappers
  import opened Bytes
  import opened FixedWidth
  import opened Msgpack

  datatype Kind =
    | PositiveFixint | NegativeFixint | MapKind | ArrayKind | StrKind | NilKind | FalseKind | TrueKind
    | UnsignedKind | SignedKind | BinKind | FloatKind | NoKind

  /** One line of the table: first bytes, what they announce, and the width of the number that
      follows; without one the number is the distance from the first of them. */
  datatype Row = Row(first: Byte, last: Byte, kind: Kind, width: nat)

  const FORMATS: seq<Row> := [
    Row(0x00, 0x7F, PositiveFixint, 0), Row(0x80, 0x8F, MapKind, 0), Row(0x90, 0x9F, ArrayKind, 0),
    Row(0xA0, 0xBF, StrKind, 0), Row(0xC0, 0xC0, NilKind, 0), Row(0xC1, 0xC1, NoKind, 0),
    Row(0xC2, 0xC2, FalseKind, 0), Row(0xC3, 0xC3, TrueKind, 0), Row(0xC4, 0xC6, BinKind, 0),
    Row(0xC7, 0xC9, NoKind, 0), Row(0xCA, 0xCB, FloatKind, 0), Row(0xCC, 0xCC, UnsignedKind, 1),
    Row(0xCD, 0xCD, UnsignedKind, 2), Row(0xCE, 0xCE, UnsignedKind, 4), Row(0xCF, 0xCF, UnsignedKind, 8),
    Row(0xD0, 0xD0, SignedKind, 1), Row(0xD1, 0xD1, SignedKind, 2), Row(0xD2, 0xD2, SignedKind, 4),
    Row(0xD3, 0xD3, SignedKind, 8), Row(0xD4, 0xD8, NoKind, 0), Row(0xD9, 0xD9, StrKind, 1),
    Row(0xDA, 0xDA, StrKind, 2), Row(0xDB, 0xDB, StrKind, 4), Row(0xDC, 0xDC, ArrayKind, 2),
    Row(0xDD, 0xDD, ArrayKind, 4), Row(0xDE, 0xDE, MapKind, 2), Row(0xDF, 0xDF, MapKind, 4),
    Row(0xE0, 0xFF, NegativeFixint, 0)]

  predicate Covers(row: Row, tag: Byte) {
    row.first <= tag <= row.last
  }

  /** What a line announces, with the number that belongs to it. */
  function Announced(kind: Kind, tag: Byte, n: nat, signed: int): Result<Head, CodecError> {
    match kind
    case PositiveFixint => Ok(Whole(Int(n)))
    case NegativeFixint => Ok(Whole(Int(n - 32)))
    case MapKind => Ok(MapOf(n))
    case ArrayKind => Ok(ArrOf(n))
    case StrKind => Ok(StrOf(n))
    case NilKind => Ok(Whole(Nil))
    case FalseKind => Ok(Whole(Bool(false)))
    case TrueKind => Ok(Whole(Bool(true)))
    case UnsignedKind => Ok(Whole(Int(n)))
    case SignedKind => Ok(Whole(Int(signed)))
    case BinKind => Err(ByteString)
    case FloatKind => Err(FloatingPoint)
    case NoKind => Err(UnsupportedTag(tag))
  }

  /** Reading a head is looking its first byte up in the table. */
  lemma {:induction false} HeadFollowsTable(i: nat, tag: Byte, d: Bytes)
    requires i < |FORMATS| && Covers(FORMATS[i], tag)
    ensures var row := FORMATS[i];
            if row.width > |d| then ReadHead(tag, d) == Err(Truncated)
            else
              var n := if row.width == 0 then tag - row.first else Unsigned(d[..row.width]);
              var r := Announced(row.kind, tag, n, Signed(d[..row.width]));
              ReadHead(tag, d) == if r.Err? then Err(r.error) else Ok((r.value, d[row.width..]))
  {
    hide Unsigned, Signed;
    assert d[0..] == d;
  }

  /** Every first byte is on one line. */
  lemma {:induction false} TableCovers(tag: Byte) returns (i: nat)
    ensures i < |FORMATS| && Covers(FORMATS[i], tag)
    ensures forall j :: 0 <= j < |FORMATS| && Covers(FORMATS[j], tag) ==> j == i
  {
    assert forall k :: 0 < k < |FORMATS| ==> FORMATS[k].first == FORMATS[k - 1].last + 1;
    assert forall k :: 0 <= k < |FORMATS| ==> FORMATS[k].first <= FORMATS[k].last;
    assert FORMATS[|FORMATS| - 1].last == 255 && FORMATS[0].first == 0;
    i := Line(FORMATS, tag);
  }

  lemma {:induction false} Line(rows: seq<Row>, tag: Byte) returns (i: nat)
    requires rows != [] && rows[0].first == 0 && rows[|rows| - 1].last == 255
    requires forall k :: 0 < k < |rows| ==> rows[k].first == rows[k - 1].last + 1
    requires forall k :: 0 <= k < |rows| ==> rows[k].first <= rows[k].last
    ensures i < |rows| && Covers(rows[i], tag)
    ensures forall j :: 0 <= j < |rows| && Covers(rows[j], tag) ==> j == i
  {
    i := 0;
    while rows[i].last < tag
      invariant i < |rows| && rows[i].first <= tag
      invariant forall j :: 0 <= j < i ==> rows[j].last < rows[i].first
      decreases |rows| - i
    {
      i := i + 1;
    }
    var k := i + 1;
    while k < |rows|
      invariant i < k <= |rows|
      invariant rows[i].last <= rows[k - 1].last
      invariant forall j :: i < j < k ==> tag < rows[j].first
    {
      k := k + 1;
    }
  }

  /** The line on which a packed value starts: what is not negative is packed without a sign. */
  predicate StartsAs(t: Tree, kind: Kind) {
    match t
    case Nil => kind == NilKind
    case Bool(on) => kind == if on then TrueKind else FalseKind
    case Int(n) =>
      kind == if n >= 0x80 then UnsignedKind else if n >= 0 then PositiveFixint
              else if n >= -0x20 then NegativeFixint else SignedKind
    case Str(_) => kind == StrKind
    case Arr(_) => kind == ArrayKind
    case Map(_) => kind == MapKind
    case _ => false
  }

  lemma {:induction false} PackedStartsAs(t: Tree, i: nat)
    requires Pack(t).Ok? && i < |FORMATS|
    ensures Pack(t).value != [] && (Covers(FORMATS[i], Pack(t).value[0]) ==> StartsAs(t, FORMATS[i].kind))
  {
    PackIs(t);
    hide BigEndian, All;
  }

  // ----- refusals -----

  /** Why a value that holds no others is not packed. */
  lemma {:induction false} UnpackableFor(t: Tree)
    requires !t.Arr? && !t.Map?
    ensures Pack(t) == Err(ByteString) <==> t.Raw?
    ensures Pack(t) == Err(FloatingPoint) <==> t.Floating?
    ensures Pack(t) == Err(OutOfRange) <==> t.Int? && !(-0x8000_0000_0000_0000 <= t.n < 0x1_0000_0000_0000_0000)
    ensures Pack(t) == Err(TooLong) <==> t.Str? && |t.utf8| >= 0x1_0000_0000
  {
    hide BigEndian;
  }

  /** A list or dictionary that is too long is refused before any of its elements; else the
      first element that is not packed decides. */
  lemma {:induction false} TooManyFirst(t: Tree)
    ensures t.Arr? && |t.items| >= 0x1_0000_0000 ==> Pack(t) == Err(TooLong)
    ensures t.Map? && |t.members| >= 0x1_0000_0000 ==> Pack(t) == Err(TooLong)
    ensures t.Arr? && |t.items| < 0x1_0000_0000 ==> (Pack(t).Err? ==> Pack(t) == All(ItemCodes(t.items)))
    ensures t.Map? && |t.members| < 0x1_0000_0000 ==> (Pack(t).Err? ==> Pack(t) == All(MemberCodes(t.members)))
  {
    PackIs(t);
    hide Pack, BigEndian, All;
  }

  /** Why a text is not read: too few bytes, or bytes that are not UTF-8. */
  lemma {:induction false} UnreadableText(utf8: Utf8, d: Bytes, n: nat)
    ensures ReadStr(utf8, d, n) == Err(Truncated) <==> n > |d|
    ensures ReadStr(utf8, d, n) == Err(BadUtf8) <==> n <= |d| && !utf8(d[..n])
  {
  }

  /** A dictionary key that is not a text is refused as soon as it is read, and nothing is read
      off no bytes. */
  lemma {:induction false} UnreadableKey(utf8: Utf8, d: Bytes, n: nat, ms: seq<Member>)
    requires n > 0 && Read(utf8, d).Ok? && !Read(utf8, d).value.0.Str?
    ensures ReadMembers(utf8, d, n, ms) == Err(KeyNotString) && Read(utf8, []) == Err(Truncated)
  {
  }

  /** Assigning a key that was there replaces its value in place; a new key comes last. */
  lemma {:induction false} AssignIs(ms: seq<Member>, k: Bytes, v: Tree, i: nat)
    ensures (forall j :: 0 <= j < |ms| ==> ms[j].key != k) ==> Assign(ms, k, v) == ms + [Member(k, v)]
    ensures i < |ms| && ms[i].key == k && (forall j :: 0 <= j < i ==> ms[j].key != k) ==>
              Assign(ms, k, v) == ms[i := Member(k, v)]
    decreases |ms|
  {
    if ms != [] {
      AssignIs(ms[1..], k, v, if i > 0 then i - 1 else 0);
      assert ms == [ms[0]] + ms[1..];
      if 0 < i < |ms| {
        assert forall j :: 0 <= j < |ms| - 1 ==> ms[1..][j] == ms[j + 1];
        assert ms[i := Member(k, v)] == [ms[0]] + ms[1..][i - 1 := Member(k, v)];
      }
    }
  }
}
