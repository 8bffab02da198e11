/** The codec as the program runs it: a buffer that grows while packing, and a reader that
    advances over the frame. */
module MsgpackCodec {
  import opened Wrappers
  import opened Bytes
  import opened FixedWidth
  import opened Msgpack

  class Packer {
    var out: Bytes

    constructor ()
      ensures out == []
    {
      out := [];
    }

    /** Append what `code` gives, or report its error. */
    method Append(code: Result<Bytes, CodecError>) returns (error: Option<CodecError>)
      modifies this
      ensures match code
              case Ok(s) => error.None? && out == old(out) + s
              case Err(e) => error == Some(e) && out == old(out)
    {
      if code.Err? {
        return Some(code.error);
      }
      out := out + code.value;
      return None;
    }

    /** `_pack_str`. */
    method PackString(s: Bytes) returns (error: Option<CodecError>)
      modifies this
      ensures match PackStr(s)
              case Ok(code) => error.None? && out == old(out) + code
              case Err(e) => error == Some(e)
    {
      error := Append(StrHeader(|s|));
      if error.None? {
        out := out + s;
      }
    }

    /** `_pack`. */
    method PackValue(t: Tree) returns (error: Option<CodecError>)
      modifies this
      ensures match Pack(t)
              case Ok(code) => error.None? && out == old(out) + code
              case Err(e) => error == Some(e)
      decreases t, 1
    {
      match t
      case Nil =>
        out := out + [0xC0];
        return None;
      case Bool(on) =>
        out := out + [if on then 0xC3 else 0xC2];
        return None;
      case Int(n) => error := Append(PackInt(n));
      case Str(s) => error := PackString(s);
      case Arr(items) => error := PackItems(t);
      case Map(members) => error := PackMembers(t);
      case Raw(_) => return Some(ByteString);
      case Floating => return Some(FloatingPoint);
    }

    method PackItems(t: Tree) returns (error: Option<CodecError>)
      requires t.Arr?
      modifies this
      ensures match Pack(t)
              case Ok(code) => error.None? && out == old(out) + code
              case Err(e) => error == Some(e)
      decreases t, 0
    {
      hide ArrayHeader, Pack, All;
      PackIs(t);
      ghost var codes := ItemCodes(t.items);
      error := Append(ArrayHeader(|t.items|));
      if error.Some? {
        return;
      }
      ghost var start := out;
      NoneCoded();
      assert codes[..0] == [];
      for i := 0 to |t.items|
        invariant All(codes[..i]).Ok? && out == start + All(codes[..i]).value
      {
        ghost var before := out;
        error := PackValue(t.items[i]);
        if error.Some? {
          AllStops(codes, i);
          return;
        }
        AllSnoc(codes[..i], codes[i]);
        assert codes[..i + 1] == codes[..i] + [codes[i]];
      }
      assert codes[..|t.items|] == codes;
      return None;
    }

    method PackMembers(t: Tree) returns (error: Option<CodecError>)
      requires t.Map?
      modifies this
      ensures match Pack(t)
              case Ok(code) => error.None? && out == old(out) + code
              case Err(e) => error == Some(e)
      decreases t, 0
    {
      hide MapHeader, Pack, PackStr, All;
      PackIs(t);
      ghost var codes := MemberCodes(t.members);
      error := Append(MapHeader(|t.members|));
      if error.Some? {
        return;
      }
      ghost var start := out;
      NoneCoded();
      assert codes[..0] == [];
      for i := 0 to |t.members|
        invariant All(codes[..i]).Ok? && out == start + All(codes[..i]).value
      {
        error := PackString(t.members[i].key);
        if error.Some? {
          AllStops(codes, i);
          return;
        }
        error := PackValue(t.members[i].value);
        if error.Some? {
          AllStops(codes, i);
          return;
        }
        AllSnoc(codes[..i], codes[i]);
        assert codes[..i + 1] == codes[..i] + [codes[i]];
      }
      assert codes[..|t.members|] == codes;
      return None;
    }
  }

  lemma {:induction false} NoneCoded()
    ensures All([]) == Ok([])
  {
  }

  /** `msgpack_pack`. */
  method MsgpackPack(t: Tree) returns (r: Result<Bytes, CodecError>)
    ensures r == Pack(t)
  {
    var p := new Packer();
    var error := p.PackValue(t);
    assert Pack(t).Ok? ==> [] + Pack(t).value == Pack(t).value;
    r := if error.Some? then Err(error.value) else Ok(p.out);
  }

  class Reader {
    const data: Bytes
    var pos: nat

    predicate Valid()
      reads this
    {
      pos <= |data|
    }

    /** What has not been read yet. */
    function Rest(): Bytes
      requires Valid()
      reads this
    {
      data[pos..]
    }

    constructor (data: Bytes)
      ensures Valid() && Rest() == data
    {
      this.data, pos := data, 0;
    }

    /** `take`. */
    method TakeBytes(count: nat) returns (r: Result<Bytes, CodecError>)
      requires Valid()
      modifies this
      ensures Valid() && pos >= old(pos) && Told(Take(old(Rest()), count), r, Rest())
    {
      if pos + count > |data| {
        return Err(Truncated);
      }
      var chunk := data[pos..pos + count];
      assert Rest()[..count] == chunk && Rest()[count..] == data[pos + count..];
      pos := pos + count;
      return Ok(chunk);
    }

    method Uint(width: nat) returns (r: Result<nat, CodecError>)
      requires Valid()
      modifies this
      ensures Valid() && pos >= old(pos) && Told(ReadUint(old(Rest()), width), r, Rest())
    {
      var s := TakeBytes(width);
      r := if s.Err? then Err(s.error) else Ok(Unsigned(s.value));
    }

    method SignedInt(width: nat) returns (r: Result<int, CodecError>)
      requires Valid()
      modifies this
      ensures Valid() && pos >= old(pos) && Told(ReadInt(old(Rest()), width), r, Rest())
    {
      var s := TakeBytes(width);
      r := if s.Err? then Err(s.error) else Ok(Signed(s.value));
    }

    /** The dispatch on a tag already read. */
    method HeadOf(tag: Byte) returns (r: Result<Head, CodecError>)
      requires Valid()
      modifies this
      ensures Valid() && pos >= old(pos) && Told(ReadHead(tag, old(Rest())), r, Rest())
    {
      hide Unsigned, Signed;
      if tag <= 0x7F { return Ok(Whole(Int(tag))); }
      if tag >= 0xE0 { return Ok(Whole(Int(tag - 0x100))); }
      if tag <= 0x8F { return Ok(MapOf(tag - 0x80)); }
      if tag <= 0x9F { return Ok(ArrOf(tag - 0x90)); }
      if tag <= 0xBF { return Ok(StrOf(tag - 0xA0)); }
      if tag == 0xC0 { return Ok(Whole(Nil)); }
      if tag == 0xC2 { return Ok(Whole(Bool(false))); }
      if tag == 0xC3 { return Ok(Whole(Bool(true))); }
      if tag == 0xC4 || tag == 0xC5 || tag == 0xC6 { return Err(ByteString); }
      if tag == 0xCA || tag == 0xCB { return Err(FloatingPoint); }
      if 0xD0 <= tag <= 0xD3 {
        var i := SignedInt(if tag == 0xD0 then 1 else if tag == 0xD1 then 2 else if tag == 0xD2 then 4 else 8);
        return if i.Err? then Err(i.error) else Ok(Whole(Int(i.value)));
      }
      if !(0xCC <= tag <= 0xCF || 0xD9 <= tag <= 0xDF) { return Err(UnsupportedTag(tag)); }
      var width := if tag == 0xCC || tag == 0xD9 then 1 else if tag == 0xCD || tag == 0xDA || tag == 0xDC
          || tag == 0xDE then 2
                   else if tag == 0xCF then 8 else 4;
      var n := Uint(width);
      if n.Err? { return Err(n.error); }
      r := Ok(if tag <= 0xCF then Whole(Int(n.value)) else if tag <= 0xDB then StrOf(n.value)
              else if tag <= 0xDD then ArrOf(n.value) else MapOf(n.value));
    }

    /** `_unpack`. */
    method Unpack(utf8: Utf8) returns (r: Result<Tree, CodecError>)
      requires Valid()
      modifies this
      ensures Valid() && pos >= old(pos) && (r.Ok? ==> pos > old(pos)) && Told(Read(utf8, old(Rest())), r, Rest())
      decreases |data| - pos, 0
    {
      hide ReadHead, ReadItems, ReadMembers, Take;
      if pos == |data| {
        return Err(Truncated);
      }
      ghost var d := Rest();
      var tag := data[pos];
      pos := pos + 1;
      assert Rest() == d[1..];
      var h := HeadOf(tag);
      if h.Err? {
        return Err(h.error);
      }
      match h.value
      case Whole(t) => return Ok(t);
      case StrOf(n) =>
        var s := TakeBytes(n);
        if s.Err? {
          return Err(s.error);
        }
        return if utf8(s.value) then Ok(Str(s.value)) else Err(BadUtf8);
      case ArrOf(n) =>
        var items := UnpackArray(utf8, n);
        return if items.Err? then Err(items.error) else Ok(Arr(items.value));
      case MapOf(n) =>
        var members := UnpackMap(utf8, n);
        return if members.Err? then Err(members.error) else Ok(Map(members.value));
    }

    /** `_unpack_array`. */
    method UnpackArray(utf8: Utf8, n: nat) returns (r: Result<seq<Tree>, CodecError>)
      requires Valid()
      modifies this
      ensures Valid() && pos >= old(pos) && Told(ReadItems(utf8, old(Rest()), n), r, Rest())
      decreases |data| - pos, n + 1
    {
      hide Read, ReadItems;
      ghost var d := Rest();
      var items: seq<Tree> := [];
      PrependNone(ReadItems(utf8, d, n));
      for i := 0 to n
        invariant Valid() && pos >= old(pos)
        invariant ReadItems(utf8, d, n) == Prepended(items, ReadItems(utf8, Rest(), n - i))
      {
        ReadItemsStep(utf8, Rest(), n - i);
        var item := Unpack(utf8);
        if item.Err? {
          return Err(item.error);
        }
        PrependOne(items, item.value, ReadItems(utf8, Rest(), n - i - 1));
        items := items + [item.value];
      }
      ReadItemsStep(utf8, Rest(), 0);
      assert items + [] == items;
      return Ok(items);
    }

    /** `_unpack_map`. */
    method UnpackMap(utf8: Utf8, n: nat) returns (r: Result<seq<Member>, CodecError>)
      requires Valid()
      modifies this
      ensures Valid() && pos >= old(pos) && Told(ReadMembers(utf8, old(Rest()), n, []), r, Rest())
      decreases |data| - pos, n + 1
    {
      hide Read, Assign;
      ghost var d := Rest();
      var members: seq<Member> := [];
      for i := 0 to n
        invariant Valid() && pos >= old(pos)
        invariant ReadMembers(utf8, d, n, []) == ReadMembers(utf8, Rest(), n - i, members)
      {
        var key := Unpack(utf8);
        if key.Err? {
          return Err(key.error);
        }
        if !key.value.Str? {
          return Err(KeyNotString);
        }
        var value := Unpack(utf8);
        if value.Err? {
          return Err(value.error);
        }
        members := Assign(members, key.value.utf8, value.value);
      }
      return Ok(members);
    }
  }

  /** A read step told `r` and left `rest`, as the function says. */
  ghost predicate Told<T>(spec: Result<(T, Bytes), CodecError>, r: Result<T, CodecError>, rest: Bytes) {
    match spec
    case Ok(v) => r == Ok(v.0) && rest == v.1
    case Err(e) => r == Err(e)
  }

  ghost function Prepended(items: seq<Tree>, r: Result<(seq<Tree>, Bytes), CodecError>): Result<(seq<Tree>,
      Bytes), CodecError> {
    if r.Err? then r else Ok((items + r.value.0, r.value.1))
  }

  lemma {:induction false} PrependNone(r: Result<(seq<Tree>, Bytes), CodecError>)
    ensures Prepended([], r) == r
  {
    if r.Ok? { assert [] + r.value.0 == r.value.0; }
  }

  lemma {:induction false} PrependOne(items: seq<Tree>, x: Tree, r: Result<(seq<Tree>, Bytes), CodecError>)
    ensures Prepended(items, Prepended([x], r)) == Prepended(items + [x], r)
  {
    if r.Ok? { assert items + ([x] + r.value.0) == items + [x] + r.value.0; }
  }

  lemma {:induction false} ReadItemsStep(utf8: Utf8, d: Bytes, n: nat)
    ensures n == 0 ==> ReadItems(utf8, d, n) == Ok(([], d))
    ensures n > 0 && Read(utf8, d).Err? ==> ReadItems(utf8, d, n) == Err(Read(utf8, d).error)
    ensures n > 0 && Read(utf8, d).Ok? ==>
              ReadItems(utf8, d, n) == Prepended([Read(utf8, d).value.0], ReadItems(utf8, Read(utf8, d).value.1, n - 1))
  {
    hide Read;
  }

  /** `msgpack_unpack`. */
  method MsgpackUnpack(utf8: Utf8, d: Bytes) returns (r: Result<Tree, CodecError>)
    ensures r == Unpacked(utf8, d)
  {
    hide Read;
    var reader := new Reader(d);
    var value := reader.Unpack(utf8);
    if value.Ok? && reader.pos != |reader.data| {
      return Err(TrailingBytes);
    }
    return value;
  }
}
