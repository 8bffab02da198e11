/** The MessagePack frame codec of `src/lazily/msgpack_codec.py` as functions: packing a
    value tree and reading one off the front of some bytes. */
module Msgpack {
  import opened Wrappers
  import opened Bytes
  import opened FixedWidth

  datatype Member = Member(key: Bytes, value: Tree)

  /** A frame value. A string is given by its UTF-8 bytes; the last two have no encoding. */
  datatype Tree =
    | Nil
    | Bool(on: bool)
    | Int(n: int)
    | Str(utf8: Bytes)
    | Arr(items: seq<Tree>)
    | Map(members: seq<Member>)
    | Raw(data: Bytes)
    | Floating

  datatype CodecError =
    | OutOfRange | TooLong | ByteString | FloatingPoint
    | Truncated | BadUtf8 | KeyNotString | UnsupportedTag(tag: Byte) | TrailingBytes

  /** What counts as valid UTF-8 is left to the caller. */
  type Utf8 = Bytes -> bool

  // ----- packing -----

  /** `_pack_int`, `_pack_uint`. */
  function PackInt(n: int): Result<Bytes, CodecError> {
    if n >= 0 then
      if n < 0x80 then Ok([n])
      else if n <= 0xFF then Ok([0xCC] + BigEndian(n, 1))
      else if n <= 0xFFFF then Ok([0xCD] + BigEndian(n, 2))
      else if n <= 0xFFFF_FFFF then Ok([0xCE] + BigEndian(n, 4))
      else if n <= 0xFFFF_FFFF_FFFF_FFFF then Ok([0xCF] + BigEndian(n, 8))
      else Err(OutOfRange)
    else
      if n >= -0x20 then Ok([0x100 + n])
      else if n >= -0x80 then Ok([0xD0] + BigEndian(n + 0x100, 1))
      else if n >= -0x8000 then Ok([0xD1] + BigEndian(n + 0x1_0000, 2))
      else if n >= -0x8000_0000 then Ok([0xD2] + BigEndian(n + 0x1_0000_0000, 4))
      else if n >= -0x8000_0000_0000_0000 then Ok([0xD3] + BigEndian(n + 0x1_0000_0000_0000_0000, 8))
      else Err(OutOfRange)
  }

  function StrHeader(size: nat): Result<Bytes, CodecError> {
    if size < 0x20 then Ok([0xA0 + size])
    else if size <= 0xFF then Ok([0xD9] + BigEndian(size, 1))
    else if size <= 0xFFFF then Ok([0xDA] + BigEndian(size, 2))
    else if size <= 0xFFFF_FFFF then Ok([0xDB] + BigEndian(size, 4))
    else Err(TooLong)
  }

  function ArrayHeader(size: nat): Result<Bytes, CodecError> {
    if size < 0x10 then Ok([0x90 + size])
    else if size <= 0xFFFF then Ok([0xDC] + BigEndian(size, 2))
    else if size <= 0xFFFF_FFFF then Ok([0xDD] + BigEndian(size, 4))
    else Err(TooLong)
  }

  function MapHeader(size: nat): Result<Bytes, CodecError> {
    if size < 0x10 then Ok([0x80 + size])
    else if size <= 0xFFFF then Ok([0xDE] + BigEndian(size, 2))
    else if size <= 0xFFFF_FFFF then Ok([0xDF] + BigEndian(size, 4))
    else Err(TooLong)
  }

  function Both(a: Result<Bytes, CodecError>, b: Result<Bytes, CodecError>): Result<Bytes, CodecError> {
    if a.Err? then a else if b.Err? then b else Ok(a.value + b.value)
  }

  /** The pieces one after the other, or the first error. */
  function All(rs: seq<Result<Bytes, CodecError>>): Result<Bytes, CodecError>
    decreases |rs|
  {
    if rs == [] then Ok([]) else Both(rs[0], All(rs[1..]))
  }

  function PackStr(s: Bytes): Result<Bytes, CodecError> {
    Both(StrHeader(|s|), Ok(s))
  }

  /** `_pack`. */
  function Pack(t: Tree): Result<Bytes, CodecError> {
    match t
    case Nil => Ok([0xC0])
    case Bool(on) => Ok([if on then 0xC3 else 0xC2])
    case Int(n) => PackInt(n)
    case Str(s) => PackStr(s)
    case Arr(items) => Both(ArrayHeader(|items|), All(seq(|items|, i requires 0 <= i < |items| => Pack(items[i]))))
    case Map(members) =>
      Both(MapHeader(|members|),
          All(seq(|members|, i requires 0 <= i < |members| => Both(PackStr(members[i].key), Pack(members[i].value)))))
    case Raw(_) => Err(ByteString)
    case Floating => Err(FloatingPoint)
  }

  function ItemCodes(items: seq<Tree>): seq<Result<Bytes, CodecError>> {
    seq(|items|, i requires 0 <= i < |items| => Pack(items[i]))
  }

  function MemberCode(m: Member): Result<Bytes, CodecError> {
    Both(PackStr(m.key), Pack(m.value))
  }

  function MemberCodes(members: seq<Member>): seq<Result<Bytes, CodecError>> {
    seq(|members|, i requires 0 <= i < |members| => MemberCode(members[i]))
  }

  lemma {:induction false} PackIs(t: Tree)
    ensures t.Arr? ==> Pack(t) == Both(ArrayHeader(|t.items|), All(ItemCodes(t.items)))
    ensures t.Map? ==> Pack(t) == Both(MapHeader(|t.members|), All(MemberCodes(t.members)))
  {
    hide All, PackStr, ArrayHeader, MapHeader;
    match t
    case Arr(items) => assert ItemCodes(items) == seq(|items|, i requires 0 <= i < |items| => Pack(items[i]));
    case Map(members) =>
      assert MemberCodes(members)
          == seq(|members|, i requires 0 <= i < |members| => Both(PackStr(members[i].key), Pack(members[i].value)));
    case _ =>
  }

  lemma {:induction false} AllSnoc(cs: seq<Result<Bytes, CodecError>>, c: Result<Bytes, CodecError>)
    ensures All(cs + [c]) == Both(All(cs), c)
    decreases |cs|
  {
    if cs == [] {
      assert [c][1..] == [];
      if c.Ok? { assert c.value + [] == c.value && [] + c.value == c.value; }
    } else {
      assert (cs + [c])[1..] == cs[1..] + [c];
      AllSnoc(cs[1..], c);
      if All(cs + [c]).Ok? {
        assert cs[0].value + (All(cs[1..]).value + c.value) == (cs[0].value + All(cs[1..]).value) + c.value;
      }
    }
  }

  /** The first error decides. */
  lemma {:induction false} AllStops(cs: seq<Result<Bytes, CodecError>>, i: nat)
    requires i < |cs| && All(cs[..i]).Ok? && cs[i].Err?
    ensures All(cs) == cs[i]
    decreases i
  {
    if i > 0 {
      assert cs[..i][1..] == cs[1..][..i - 1] && cs[..i][0] == cs[0];
      AllStops(cs[1..], i - 1);
    }
  }

  // ----- reading -----

  /** What a tag and the bytes belonging to it announce. */
  datatype Head = Whole(tree: Tree) | StrOf(size: nat) | ArrOf(size: nat) | MapOf(size: nat)

  /** `_Reader.take`. */
  function Take(d: Bytes, count: nat): Result<(Bytes, Bytes), CodecError> {
    if count > |d| then Err(Truncated) else Ok((d[..count], d[count..]))
  }

  function ReadUint(d: Bytes, width: nat): Result<(nat, Bytes), CodecError> {
    var r := Take(d, width);
    if r.Err? then Err(r.error) else Ok((Unsigned(r.value.0), r.value.1))
  }

  function ReadInt(d: Bytes, width: nat): Result<(int, Bytes), CodecError> {
    var r := Take(d, width);
    if r.Err? then Err(r.error) else Ok((Signed(r.value.0), r.value.1))
  }

  function UintHead(d: Bytes, width: nat, make: nat -> Head): Result<(Head, Bytes), CodecError> {
    var r := ReadUint(d, width);
    if r.Err? then Err(r.error) else Ok((make(r.value.0), r.value.1))
  }

  function IntHead(d: Bytes, width: nat): Result<(Head, Bytes), CodecError> {
    var r := ReadInt(d, width);
    if r.Err? then Err(r.error) else Ok((Whole(Int(r.value.0)), r.value.1))
  }

  /** The dispatch of `_unpack` on the first byte. */
  function ReadHead(tag: Byte, d: Bytes): Result<(Head, Bytes), CodecError> {
    if tag <= 0x7F then Ok((Whole(Int(tag)), d))
    else if tag >= 0xE0 then Ok((Whole(Int(tag - 0x100)), d))
    else if tag <= 0x8F then Ok((MapOf(tag - 0x80), d))
    else if tag <= 0x9F then Ok((ArrOf(tag - 0x90), d))
    else if tag <= 0xBF then Ok((StrOf(tag - 0xA0), d))
    else if tag == 0xC0 then Ok((Whole(Nil), d))
    else if tag == 0xC2 then Ok((Whole(Bool(false)), d))
    else if tag == 0xC3 then Ok((Whole(Bool(true)), d))
    else if tag == 0xC4 || tag == 0xC5 || tag == 0xC6 then Err(ByteString)
    else if tag == 0xCA || tag == 0xCB then Err(FloatingPoint)
    else if tag == 0xCC then UintHead(d, 1, (n: nat) => Whole(Int(n)))
    else if tag == 0xCD then UintHead(d, 2, (n: nat) => Whole(Int(n)))
    else if tag == 0xCE then UintHead(d, 4, (n: nat) => Whole(Int(n)))
    else if tag == 0xCF then UintHead(d, 8, (n: nat) => Whole(Int(n)))
    else if tag == 0xD0 then IntHead(d, 1)
    else if tag == 0xD1 then IntHead(d, 2)
    else if tag == 0xD2 then IntHead(d, 4)
    else if tag == 0xD3 then IntHead(d, 8)
    else if tag == 0xD9 then UintHead(d, 1, (n: nat) => StrOf(n))
    else if tag == 0xDA then UintHead(d, 2, (n: nat) => StrOf(n))
    else if tag == 0xDB then UintHead(d, 4, (n: nat) => StrOf(n))
    else if tag == 0xDC then UintHead(d, 2, (n: nat) => ArrOf(n))
    else if tag == 0xDD then UintHead(d, 4, (n: nat) => ArrOf(n))
    else if tag == 0xDE then UintHead(d, 2, (n: nat) => MapOf(n))
    else if tag == 0xDF then UintHead(d, 4, (n: nat) => MapOf(n))
    else Err(UnsupportedTag(tag))
  }

  lemma {:induction false} HeadShortens(tag: Byte, d: Bytes)
    ensures ReadHead(tag, d).Ok? ==> |ReadHead(tag, d).value.1| <= |d|
  {
  }

  /** `_unpack_str`. */
  function ReadStr(utf8: Utf8, d: Bytes, size: nat): Result<(Tree, Bytes), CodecError> {
    var r := Take(d, size);
    if r.Err? then Err(r.error)
    else if utf8(r.value.0) then Ok((Str(r.value.0), r.value.1))
    else Err(BadUtf8)
  }

  /** Assigning a key of a dictionary: a key seen before keeps its place. */
  function Assign(members: seq<Member>, key: Bytes, value: Tree): seq<Member>
    decreases |members|
  {
    if members == [] then [Member(key, value)]
    else if members[0].key == key then [Member(key, value)] + members[1..]
    else [members[0]] + Assign(members[1..], key, value)
  }

  /** `_unpack`: the tree at the front and the bytes behind it. */
  function Read(utf8: Utf8, d: Bytes): (r: Result<(Tree, Bytes), CodecError>)
    ensures r.Ok? ==> |r.value.1| < |d|
    decreases |d|, 0
  {
    if d == [] then Err(Truncated)
    else
      var h := ReadHead(d[0], d[1..]);
      HeadShortens(d[0], d[1..]);
      if h.Err? then Err(h.error)
      else
        match h.value.0
        case Whole(t) => Ok((t, h.value.1))
        case StrOf(n) => ReadStr(utf8, h.value.1, n)
        case ArrOf(n) =>
          var r := ReadItems(utf8, h.value.1, n);
          if r.Err? then Err(r.error) else Ok((Arr(r.value.0), r.value.1))
        case MapOf(n) =>
          var r := ReadMembers(utf8, h.value.1, n, []);
          if r.Err? then Err(r.error) else Ok((Map(r.value.0), r.value.1))
  }

  /** `_unpack_array`. */
  function ReadItems(utf8: Utf8, d: Bytes, n: nat): (r: Result<(seq<Tree>, Bytes), CodecError>)
    ensures r.Ok? ==> |r.value.1| <= |d|
    decreases |d|, n + 1
  {
    if n == 0 then Ok(([], d))
    else
      var first := Read(utf8, d);
      if first.Err? then Err(first.error)
      else
        var rest := ReadItems(utf8, first.value.1, n - 1);
        if rest.Err? then rest else Ok(([first.value.0] + rest.value.0, rest.value.1))
  }

  /** `_unpack_map`, with the members read so far. */
  function ReadMembers(utf8: Utf8, d: Bytes, n: nat, members: seq<Member>)
    : (r: Result<(seq<Member>, Bytes), CodecError>)
    ensures r.Ok? ==> |r.value.1| <= |d|
    decreases |d|, n + 1
  {
    if n == 0 then Ok((members, d))
    else
      var key := Read(utf8, d);
      if key.Err? then Err(key.error)
      else if !key.value.0.Str? then Err(KeyNotString)
      else
        var value := Read(utf8, key.value.1);
        if value.Err? then Err(value.error)
        else ReadMembers(utf8, value.value.1, n - 1, Assign(members, key.value.0.utf8, value.value.0))
  }

  /** `msgpack_unpack`. */
  function Unpacked(utf8: Utf8, d: Bytes): Result<Tree, CodecError> {
    var r := Read(utf8, d);
    if r.Err? then Err(r.error) else if r.value.1 != [] then Err(TrailingBytes) else Ok(r.value.0)
  }
}
