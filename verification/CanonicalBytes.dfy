/** The canonical encoding of `src/lazily/replay.py`: equal bytes exactly for values that
    are equal up to the order of map entries and set members. */
module CanonicalBytes {
  import opened Bytes
  import opened Frames

  datatype Field = Field(name: Bytes, value: Value)

  datatype Entry = Entry(key: Value, value: Value)

  /** A value with an encoding. Names and texts are given by their UTF-8 bytes, a float by
      its hexadecimal text, an enum member and a dataclass by the qualified name of the class. */
  datatype Value =
    | Null
    | Boolean(on: bool)
    | Member(memberOf: Bytes, value: Value)
    | Int(n: int)
    | Float(hex: Bytes)
    | Text(utf8: Bytes)
    | Blob(data: Bytes)
    | Record(recordOf: Bytes, fields: seq<Field>)
    | Mapping(entries: seq<Entry>)
    | Set(members: seq<Value>)
    | List(items: seq<Value>)

  const TEXT_TAG: Byte := 115

  function Tag(v: Value): Byte {
    match v
    case Null => 110
    case Boolean(_) => 98
    case Member(_, _) => 101
    case Int(_) => 105
    case Float(_) => 102
    case Text(_) => TEXT_TAG
    case Blob(_) => 121
    case Record(_, _) => 100
    case Mapping(_) => 109
    case Set(_) => 116
    case List(_) => 108
  }

  function IntText(n: int): Bytes {
    if n < 0 then [MINUS] + Decimal(-n) else Decimal(n)
  }

  /** `_canonical`. */
  function Canon(v: Value): Bytes
    decreases v, 1
  {
    Frame(Tag(v), Body(v))
  }

  function Body(v: Value): Bytes
    decreases v, 0
  {
    match v
    case Null => []
    case Boolean(on) => [if on then 49 else 48]
    case Member(name, value) => Frame(TEXT_TAG, name) + Canon(value)
    case Int(n) => IntText(n)
    case Float(hex) => hex
    case Text(utf8) => utf8
    case Blob(data) => data
    case Record(name, fields) =>
      Frame(TEXT_TAG, name) + Join(seq(|fields|,
          i requires 0 <= i < |fields| => Frame(TEXT_TAG, fields[i].name) + Canon(fields[i].value)))
    case Mapping(entries) => Join(Sort(seq(|entries|,
        i requires 0 <= i < |entries| => Canon(entries[i].key) + Canon(entries[i].value))))
    case Set(members) => Join(Sort(seq(|members|, i requires 0 <= i < |members| => Canon(members[i]))))
    case List(items) => Join(seq(|items|, i requires 0 <= i < |items| => Canon(items[i])))
  }

  /** Equal up to the order of map entries and set members, at every depth. */
  ghost predicate Same(v: Value, w: Value)
    decreases v
  {
    match (v, w)
    case (Null, Null) => true
    case (Boolean(a), Boolean(b)) => a == b
    case (Member(m, a), Member(n, b)) => m == n && Same(a, b)
    case (Int(a), Int(b)) => a == b
    case (Float(a), Float(b)) => a == b
    case (Text(a), Text(b)) => a == b
    case (Blob(a), Blob(b)) => a == b
    case (Record(m, fs), Record(n, gs)) =>
      m == n && |fs| == |gs| && forall i :: 0 <= i < |fs| ==> fs[i].name == gs[i].name && Same(fs[i].value, gs[i].value)
    case (Mapping(es), Mapping(fs)) =>
      |es| == |fs|
      && exists p: seq<nat> :: Permutes(p, |es|) && forall i :: 0 <= i < |es| ==>
           Same(es[i].key, fs[p[i]].key) && Same(es[i].value, fs[p[i]].value)
    case (Set(xs), Set(ys)) =>
      |xs| == |ys| && exists p: seq<nat> :: Permutes(p, |xs|) && forall i :: 0 <= i < |xs| ==> Same(xs[i], ys[p[i]])
    case (List(xs), List(ys)) => |xs| == |ys| && forall i :: 0 <= i < |xs| ==> Same(xs[i], ys[i])
    case _ => false
  }

  // ----- words -----

  function ItemWords(xs: seq<Value>): seq<Bytes> {
    seq(|xs|, i requires 0 <= i < |xs| => Canon(xs[i]))
  }

  function FieldWord(f: Field): Bytes {
    Frame(TEXT_TAG, f.name) + Canon(f.value)
  }

  function FieldWords(fs: seq<Field>): seq<Bytes> {
    seq(|fs|, i requires 0 <= i < |fs| => FieldWord(fs[i]))
  }

  function EntryWord(e: Entry): Bytes {
    Canon(e.key) + Canon(e.value)
  }

  function EntryWords(es: seq<Entry>): seq<Bytes> {
    seq(|es|, i requires 0 <= i < |es| => EntryWord(es[i]))
  }

  lemma {:induction false} BodyIs(v: Value)
    ensures v.Record? ==> Body(v) == Frame(TEXT_TAG, v.recordOf) + Join(FieldWords(v.fields))
    ensures v.Mapping? ==> Body(v) == Join(Sort(EntryWords(v.entries)))
    ensures v.Set? ==> Body(v) == Join(Sort(ItemWords(v.members)))
    ensures v.List? ==> Body(v) == Join(ItemWords(v.items))
  {
    hide Join, Sort;
    match v
    case Record(name, fields) =>
      assert FieldWords(fields)
          == seq(|fields|, i requires 0 <= i < |fields| => Frame(TEXT_TAG, fields[i].name) + Canon(fields[i].value));
    case Mapping(entries) =>
      assert EntryWords(entries)
          == seq(|entries|, i requires 0 <= i < |entries| => Canon(entries[i].key) + Canon(entries[i].value));
    case Set(members) =>
      assert ItemWords(members) == seq(|members|, i requires 0 <= i < |members| => Canon(members[i]));
    case List(items) =>
      assert ItemWords(items) == seq(|items|, i requires 0 <= i < |items| => Canon(items[i]));
    case _ =>
  }

  /** The dataclass arm of `_canonical`: the body grows field by field. */
  method RecordBody(name: Bytes, fields: seq<Field>) returns (body: Bytes)
    ensures body == Body(Record(name, fields))
  {
    hide Join;
    BodyIs(Record(name, fields));
    body := Frame(TEXT_TAG, name);
    assert FieldWords(fields)[..0] == [];
    JoinNone();
    for i := 0 to |fields|
      invariant body == Frame(TEXT_TAG, name) + Join(FieldWords(fields)[..i])
    {
      JoinSnoc(FieldWords(fields)[..i], FieldWord(fields[i]));
      assert FieldWords(fields)[..i + 1] == FieldWords(fields)[..i] + [FieldWord(fields[i])];
      body := body + (Frame(TEXT_TAG, fields[i].name) + Canon(fields[i].value));
    }
    assert FieldWords(fields)[..|fields|] == FieldWords(fields);
  }

  lemma {:induction false} JoinNone()
    ensures Join([]) == []
  {
  }

  lemma {:induction false} CanonFront(v: Value, r: Bytes, w: Value, s: Bytes)
    requires Canon(v) + r == Canon(w) + s
    ensures Canon(v) == Canon(w) && r == s
  {
    hide Body, Frame;
    FrameUnique(Tag(v), Body(v), r, Tag(w), Body(w), s);
  }

  lemma {:induction false} CanonApart(v: Value, w: Value)
    ensures Apart(Canon(v), Canon(w)) && |Canon(v)| > 0
  {
    assert |Canon(v)| > 0 by { assert Canon(v) == Frame(Tag(v), Body(v)); }
    hide Canon;
    forall r: Bytes, s: Bytes | Canon(v) + r == Canon(w) + s ensures Canon(v) == Canon(w) {
      CanonFront(v, r, w, s);
    }
  }

  /** Two names, or keys, and the values behind them can be told apart. */
  lemma {:induction false} EntryApart(e: Entry, f: Entry)
    ensures Apart(EntryWord(e), EntryWord(f)) && |EntryWord(e)| > 0
    ensures EntryWord(e) == EntryWord(f) <==> Canon(e.key) == Canon(f.key) && Canon(e.value) == Canon(f.value)
  {
    CanonApart(e.key, f.key);
    hide Canon;
    forall r: Bytes, s: Bytes | EntryWord(e) + r == EntryWord(f) + s
      ensures Canon(e.key) == Canon(f.key) && Canon(e.value) == Canon(f.value)
    {
      assert Canon(e.key) + (Canon(e.value) + r) == EntryWord(e) + r;
      assert Canon(f.key) + (Canon(f.value) + s) == EntryWord(f) + s;
      CanonFront(e.key, Canon(e.value) + r, f.key, Canon(f.value) + s);
      CanonFront(e.value, r, f.value, s);
    }
    if EntryWord(e) == EntryWord(f) {
      assert EntryWord(e) + [] == EntryWord(f) + [];
    }
  }

  lemma {:induction false} FieldApart(e: Field, f: Field)
    ensures Apart(FieldWord(e), FieldWord(f)) && |FieldWord(e)| > 0
    ensures FieldWord(e) == FieldWord(f) <==> e.name == f.name && Canon(e.value) == Canon(f.value)
  {
    CanonApart(e.value, f.value);
    hide Canon, Frame;
    forall r: Bytes, s: Bytes | FieldWord(e) + r == FieldWord(f) + s
      ensures e.name == f.name && Canon(e.value) == Canon(f.value)
    {
      assert Frame(TEXT_TAG, e.name) + (Canon(e.value) + r) == FieldWord(e) + r;
      assert Frame(TEXT_TAG, f.name) + (Canon(f.value) + s) == FieldWord(f) + s;
      FrameUnique(TEXT_TAG, e.name, Canon(e.value) + r, TEXT_TAG, f.name, Canon(f.value) + s);
      CanonFront(e.value, r, f.value, s);
    }
    if FieldWord(e) == FieldWord(f) {
      assert FieldWord(e) + [] == FieldWord(f) + [];
    }
  }

  /** Joined words determine the words. */
  lemma {:induction false} JoinSameIff(xs: seq<Bytes>, ys: seq<Bytes>)
    requires Words(xs) && Words(ys) && AllApart(xs, ys)
    ensures Join(xs) == Join(ys) <==> xs == ys
  {
    if Join(xs) == Join(ys) { JoinUnique(xs, ys); }
  }

  /** Joined sorted words determine the words up to order. */
  lemma {:induction false} SortedJoinSameIff(xs: seq<Bytes>, ys: seq<Bytes>)
    requires Words(xs) && Words(ys) && AllApart(xs, ys)
    ensures Join(Sort(xs)) == Join(Sort(ys)) <==> multiset(xs) == multiset(ys)
  {
    hide Apart, Sort, Join;
    SortKeepsWords(xs, ys);
    JoinSameIff(Sort(xs), Sort(ys));
    SortSameIff(xs, ys);
  }

  lemma {:induction false} SortKeepsWords(xs: seq<Bytes>, ys: seq<Bytes>)
    requires Words(xs) && Words(ys) && AllApart(xs, ys)
    ensures Words(Sort(xs)) && Words(Sort(ys)) && AllApart(Sort(xs), Sort(ys))
  {
    hide Apart, Sort;
    forall i | 0 <= i < |Sort(xs)| ensures Sort(xs)[i] in xs { SortedFrom(xs, i); }
    forall i | 0 <= i < |Sort(ys)| ensures Sort(ys)[i] in ys { SortedFrom(ys, i); }
  }

  lemma {:induction false} SortedFrom(xs: seq<Bytes>, i: nat)
    requires i < |Sort(xs)|
    ensures Sort(xs)[i] in xs
  {
    SortSorts(xs);
    assert Sort(xs)[i] in multiset(Sort(xs));
  }

  lemma {:induction false} IntTextInjective(a: int, b: int)
    ensures IntText(a) == IntText(b) <==> a == b
  {
    DecimalReads(if a < 0 then -a else a);
    DecimalReads(if b < 0 then -b else b);
    if IntText(a) == IntText(b) {
      assert IntText(a)[0] == IntText(b)[0];
      if a < 0 && b < 0 {
        assert IntText(a)[1..] == Decimal(-a) && IntText(b)[1..] == Decimal(-b);
      }
    }
  }

  // ----- the encoding and the values -----

  /** Equal bytes exactly for the same value up to map and set order, at every depth. */
  lemma {:induction false} CanonSameIff(v: Value, w: Value)
    ensures Canon(v) == Canon(w) <==> Same(v, w)
    decreases v
  {
    hide Frame, Join, Sort;
    FrameSame(Tag(v), Body(v), Tag(w), Body(w));
    if Tag(v) == Tag(w) {
      match v
      case Member(m, a) => MemberSameIff(v, w);
      case Int(a) => IntTextInjective(a, w.n);
      case Record(m, fs) => RecordSameIff(v, w);
      case Mapping(es) => MappingSameIff(v, w);
      case Set(xs) => SetSameIff(v, w);
      case List(xs) => ListSameIff(v, w);
      case _ =>
    }
  }

  lemma {:induction false} MemberSameIff(v: Value, w: Value)
    requires v.Member? && w.Member?
    ensures Body(v) == Body(w) <==> Same(v, w)
    decreases v, 0
  {
    CanonSameIff(v.value, w.value);
    hide Canon;
    FieldApart(Field(v.memberOf, v.value), Field(w.memberOf, w.value));
  }

  lemma {:induction false} RecordSameIff(v: Value, w: Value)
    requires v.Record? && w.Record?
    ensures Body(v) == Body(w) <==> Same(v, w)
    decreases v, 0
  {
    BodyIs(v);
    BodyIs(w);
    var fs, gs := v.fields, w.fields;
    forall i, j | 0 <= i < |fs| && 0 <= j < |gs|
      ensures Apart(FieldWord(fs[i]), FieldWord(gs[j]))
      ensures FieldWord(fs[i]) == FieldWord(gs[j]) <==> fs[i].name == gs[j].name && Same(fs[i].value, gs[j].value)
    {
      FieldApart(fs[i], gs[j]);
      CanonSameIff(fs[i].value, gs[j].value);
    }
    FieldsAreWords(fs);
    FieldsAreWords(gs);
    hide FieldWord, Frame, Join, Apart, Body, Canon;
    JoinSameIff(FieldWords(fs), FieldWords(gs));
    if Same(v, w) { assert FieldWords(fs) == FieldWords(gs); }
    if Body(v) == Body(w) {
      FrameUnique(TEXT_TAG, v.recordOf, Join(FieldWords(fs)), TEXT_TAG, w.recordOf, Join(FieldWords(gs)));
      forall i | 0 <= i < |fs| ensures |fs| == |gs| && FieldWord(fs[i]) == FieldWord(gs[i]) {
        assert |FieldWords(fs)| == |FieldWords(gs)|;
        assert FieldWords(fs)[i] == FieldWords(gs)[i];
      }
      assert |FieldWords(fs)| == |FieldWords(gs)|;
    }
  }

  lemma {:induction false} FieldsAreWords(fs: seq<Field>)
    ensures Words(FieldWords(fs))
  {
    hide FieldWord;
    forall i | 0 <= i < |fs| ensures |FieldWord(fs[i])| > 0 { FieldApart(fs[i], fs[i]); }
  }

  lemma {:induction false} ItemsAreWords(xs: seq<Value>)
    ensures Words(ItemWords(xs))
  {
    hide Canon;
    forall i | 0 <= i < |xs| ensures |Canon(xs[i])| > 0 { CanonApart(xs[i], xs[i]); }
  }

  lemma {:induction false} EntriesAreWords(es: seq<Entry>)
    ensures Words(EntryWords(es))
  {
    hide EntryWord;
    forall i | 0 <= i < |es| ensures |EntryWord(es[i])| > 0 { EntryApart(es[i], es[i]); }
  }

  lemma {:induction false} ItemsApart(xs: seq<Value>, ys: seq<Value>)
    ensures AllApart(ItemWords(xs), ItemWords(ys))
  {
    hide Canon, Apart;
    forall i, j | 0 <= i < |xs| && 0 <= j < |ys| ensures Apart(Canon(xs[i]), Canon(ys[j])) { CanonApart(xs[i], ys[j]); }
  }

  lemma {:induction false} ListSameIff(v: Value, w: Value)
    requires v.List? && w.List?
    ensures Body(v) == Body(w) <==> Same(v, w)
    decreases v, 0
  {
    BodyIs(v);
    BodyIs(w);
    var xs, ys := v.items, w.items;
    forall i, j | 0 <= i < |xs| && 0 <= j < |ys| ensures Canon(xs[i]) == Canon(ys[j]) <==> Same(xs[i], ys[j]) {
      CanonSameIff(xs[i], ys[j]);
    }
    hide Join, Apart, Body, Canon;
    ItemsAreWords(xs);
    ItemsAreWords(ys);
    ItemsApart(xs, ys);
    JoinSameIff(ItemWords(xs), ItemWords(ys));
    assert ItemWords(xs) == ItemWords(ys)
           <==> |xs| == |ys| && forall i :: 0 <= i < |xs| ==> Canon(xs[i]) == Canon(ys[i]) by {
      if ItemWords(xs) == ItemWords(ys) {
        assert |ItemWords(xs)| == |ItemWords(ys)|;
        forall i | 0 <= i < |xs| ensures Canon(xs[i]) == Canon(ys[i]) { assert ItemWords(xs)[i] == ItemWords(ys)[i]; }
      }
    }
  }

  lemma {:induction false} SetSameIff(v: Value, w: Value)
    requires v.Set? && w.Set?
    ensures Body(v) == Body(w) <==> Same(v, w)
    decreases v, 0
  {
    BodyIs(v);
    BodyIs(w);
    var xs, ys := v.members, w.members;
    forall i, j | 0 <= i < |xs| && 0 <= j < |ys| ensures Canon(xs[i]) == Canon(ys[j]) <==> Same(xs[i], ys[j]) {
      CanonSameIff(xs[i], ys[j]);
    }
    hide *;
    ItemsAreWords(xs);
    ItemsAreWords(ys);
    ItemsApart(xs, ys);
    SortedJoinSameIff(ItemWords(xs), ItemWords(ys));
    if Body(v) == Body(w) {
      MembersToSame(v, w);
    } else if Same(v, w) {
      SameToMembers(v, w);
    }
  }

  lemma {:induction false} MembersToSame(v: Value, w: Value)
    requires v.Set? && w.Set? && multiset(ItemWords(v.members)) == multiset(ItemWords(w.members))
    requires forall i, j :: 0 <= i < |v.members| && 0 <= j < |w.members| ==>
               (Canon(v.members[i]) == Canon(w.members[j]) <==> Same(v.members[i], w.members[j]))
    ensures Same(v, w)
  {
    hide Canon, Permutes;
    var xs, ys := v.members, w.members;
    var p := Rearrangement(ItemWords(xs), ItemWords(ys));
    assert PositionsIn(p, |xs|) by { PermutesIn(p, |xs|); }
    forall i | 0 <= i < |xs| ensures Same(xs[i], ys[p[i]]) {
      assert ItemWords(xs)[i] == ItemWords(ys)[p[i]];
    }
  }

  lemma {:induction false} SameToMembers(v: Value, w: Value)
    requires v.Set? && w.Set? && Same(v, w)
    requires forall i, j :: 0 <= i < |v.members| && 0 <= j < |w.members| ==>
               (Canon(v.members[i]) == Canon(w.members[j]) <==> Same(v.members[i], w.members[j]))
    ensures multiset(ItemWords(v.members)) == multiset(ItemWords(w.members))
  {
    hide Canon;
    var xs, ys := v.members, w.members;
    var p: seq<nat> :| Permutes(p, |xs|) && forall i :: 0 <= i < |xs| ==> Same(xs[i], ys[p[i]]);
    forall i | 0 <= i < |xs| ensures ItemWords(xs)[i] == ItemWords(ys)[p[i]] {
      assert p[i] < |xs|;
    }
    RearrangedSame(p, ItemWords(xs), ItemWords(ys));
  }

  predicate PositionsIn(p: seq<nat>, n: nat) {
    |p| == n && forall i :: 0 <= i < n ==> p[i] < n
  }

  lemma {:induction false} PermutesIn(p: seq<nat>, n: nat)
    requires Permutes(p, n)
    ensures PositionsIn(p, n)
  {
  }

  lemma {:induction false} MappingSameIff(v: Value, w: Value)
    requires v.Mapping? && w.Mapping?
    ensures Body(v) == Body(w) <==> Same(v, w)
    decreases v, 0
  {
    BodyIs(v);
    BodyIs(w);
    var es, fs := v.entries, w.entries;
    forall i, j | 0 <= i < |es| && 0 <= j < |fs|
      ensures Apart(EntryWord(es[i]), EntryWord(fs[j]))
      ensures (EntryWord(es[i]) == EntryWord(fs[j]) <==> SameEntry(es[i], fs[j]))
    {
      EntryApart(es[i], fs[j]);
      CanonSameIff(es[i].key, fs[j].key);
      CanonSameIff(es[i].value, fs[j].value);
    }
    hide *;
    EntriesAreWords(es);
    EntriesAreWords(fs);
    assert AllApart(EntryWords(es), EntryWords(fs)) by { EntriesApart(es, fs); }
    SortedJoinSameIff(EntryWords(es), EntryWords(fs));
    if Body(v) == Body(w) {
      BagToSame(v, w);
    } else if Same(v, w) {
      SameToBag(v, w);
    }
  }

  ghost predicate SameEntry(e: Entry, f: Entry) {
    Same(e.key, f.key) && Same(e.value, f.value)
  }

  lemma {:induction false} EntriesApart(es: seq<Entry>, fs: seq<Entry>)
    ensures AllApart(EntryWords(es), EntryWords(fs))
  {
    hide EntryWord, Apart;
    forall i, j | 0 <= i < |es| && 0 <= j < |fs|
      ensures Apart(EntryWord(es[i]), EntryWord(fs[j]))
    {
      EntryApart(es[i], fs[j]);
    }
  }

  lemma {:induction false} BagToSame(v: Value, w: Value)
    requires v.Mapping? && w.Mapping? && multiset(EntryWords(v.entries)) == multiset(EntryWords(w.entries))
    requires forall i, j :: 0 <= i < |v.entries| && 0 <= j < |w.entries| ==>
               (EntryWord(v.entries[i]) == EntryWord(w.entries[j]) <==> SameEntry(v.entries[i], w.entries[j]))
    ensures Same(v, w)
  {
    hide EntryWord, Permutes, SameEntry;
    var es, fs := v.entries, w.entries;
    var p := Rearrangement(EntryWords(es), EntryWords(fs));
    assert PositionsIn(p, |es|) by { PermutesIn(p, |es|); }
    forall i | 0 <= i < |es| ensures Same(es[i].key, fs[p[i]].key) && Same(es[i].value, fs[p[i]].value) {
      assert EntryWords(es)[i] == EntryWords(fs)[p[i]];
      EntrySame(es[i], fs[p[i]]);
    }
  }

  lemma {:induction false} EntrySame(e: Entry, f: Entry)
    ensures SameEntry(e, f) <==> Same(e.key, f.key) && Same(e.value, f.value)
  {
  }

  lemma {:induction false} SameToBag(v: Value, w: Value)
    requires v.Mapping? && w.Mapping? && Same(v, w)
    requires forall i, j :: 0 <= i < |v.entries| && 0 <= j < |w.entries| ==>
               (EntryWord(v.entries[i]) == EntryWord(w.entries[j]) <==> SameEntry(v.entries[i], w.entries[j]))
    ensures multiset(EntryWords(v.entries)) == multiset(EntryWords(w.entries))
  {
    hide EntryWord, SameEntry;
    var es, fs := v.entries, w.entries;
    var p: seq<nat> :| Permutes(p, |es|) && forall i :: 0 <= i < |es| ==>
      Same(es[i].key, fs[p[i]].key) && Same(es[i].value, fs[p[i]].value);
    forall i | 0 <= i < |es| ensures EntryWords(es)[i] == EntryWords(fs)[p[i]] {
      EntrySame(es[i], fs[p[i]]);
    }
    RearrangedSame(p, EntryWords(es), EntryWords(fs));
  }

  // ----- the encoding written out -----

  /** Up to nine bytes the length is one digit. */
  lemma {:induction false} ShortFrame(tag: Byte, body: Bytes)
    requires |body| < 10
    ensures Frame(tag, body) == [tag, ZERO + |body|, COLON] + body
  {
  }

  /** The letters n, b, e, i, f, s, y, d, m, t and l tell the kinds of value apart. */
  lemma {:induction false} KindLetters(v: Value)
    ensures Canon(v) != []
    ensures Canon(v)[0] as char == match v
                                   case Null => 'n'
                                   case Boolean(_) => 'b'
                                   case Member(_, _) => 'e'
                                   case Int(_) => 'i'
                                   case Float(_) => 'f'
                                   case Text(_) => 's'
                                   case Blob(_) => 'y'
                                   case Record(_, _) => 'd'
                                   case Mapping(_) => 'm'
                                   case Set(_) => 't'
                                   case List(_) => 'l'
  {
    hide Body, Decimal;
  }

  /** `n0:`, `b1:1`, `b1:0`. */
  lemma {:induction false} SingletonsWritten()
    ensures Canon(Null) == [110, 48, 58]
    ensures Canon(Boolean(true)) == [98, 49, 58, 49] && Canon(Boolean(false)) == [98, 49, 58, 48]
  {
    ShortFrame(110, []);
    ShortFrame(98, [49]);
    ShortFrame(98, [48]);
    hide Frame;
  }

  /** `i2:42`, `i2:-7`. */
  lemma {:induction false} IntsWritten()
    ensures Canon(Int(42)) == [105, 50, 58, 52, 50] && Canon(Int(-7)) == [105, 50, 58, 45, 55]
  {
    assert Decimal(42) == Decimal(4) + [50] && Decimal(4) == [52] && Decimal(7) == [55];
    hide Decimal;
    ShortFrame(105, [52, 50]);
    ShortFrame(105, [45, 55]);
    hide Frame;
  }

  /** What stands behind the colon is the data itself for texts, byte strings and floats; an enum
      member is its class and its value, a record its class and then its fields by name. */
  lemma {:induction false} BodiesWritten(data: Bytes, name: Bytes, f: Field, v: Value)
    ensures Canon(Text(data)) == Frame('s' as int, data) && Canon(Blob(data)) == Frame('y' as int, data)
    ensures Canon(Float(data)) == Frame('f' as int, data)
    ensures Canon(Member(name, v)) == Frame('e' as int, Frame('s' as int, name) + Canon(v))
    ensures Canon(Record(name, [f]))
            == Frame('d' as int, Frame('s' as int, name) + (Frame('s' as int, f.name) + Canon(f.value)))
  {
    BodyIs(Record(name, [f]));
    assert FieldWords([f]) == [FieldWord(f)];
    OneWord(FieldWord(f));
    hide Frame, Join;
  }

  /** Items stand in their own order, members and entries sorted, keys in front of values. */
  lemma {:induction false} CompoundsWritten(k: Value, v: Value, w: Value)
    ensures Canon(List([v, w])) == Frame('l' as int, Canon(v) + Canon(w))
    ensures Canon(Mapping([Entry(k, v)])) == Frame('m' as int, Canon(k) + Canon(v))
    ensures BytesLess(Canon(v), Canon(w)) ==>
              Canon(Set([v, w])) == Canon(Set([w, v])) == Frame('t' as int, Canon(v) + Canon(w))
  {
    BodyIs(List([v, w]));
    BodyIs(Mapping([Entry(k, v)]));
    BodyIs(Set([v, w]));
    BodyIs(Set([w, v]));
    assert ItemWords([v, w]) == [Canon(v), Canon(w)] && ItemWords([w, v]) == [Canon(w), Canon(v)];
    assert EntryWords([Entry(k, v)]) == [Canon(k) + Canon(v)];
    OneWord(Canon(k) + Canon(v));
    TwoWords(Canon(v), Canon(w));
    hide Frame, Join, Sort;
  }

  lemma {:induction false} OneWord(w: Bytes)
    ensures Sort([w]) == [w] && Join([w]) == w
  {
    assert [w][1..] == [];
  }

  lemma {:induction false} TwoWords(a: Bytes, b: Bytes)
    ensures Join([a, b]) == a + b
    ensures BytesLess(a, b) ==> Sort([a, b]) == [a, b] && Sort([b, a]) == [a, b]
  {
    assert [a, b][1..] == [b] && [b, a][1..] == [a] && [b][1..] == [] && [a][1..] == [];
    OneWord(a);
    OneWord(b);
    BytesTotal(a, b);
    assert Place(b, []) == [b];
  }
}
