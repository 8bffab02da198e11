/** Fractional child keys: `key_between` and `_cmp_sort` of `src/lazily/lossless_tree_crdt.py`. */
module FractionalKeys {
  import opened Wrappers
  import opened Bytes

  type Frac = Bytes

  /** A fractional position, told apart by peer when two positions are equal. */
  datatype SortKey = SortKey(frac: Frac, peer: nat)

  predicate KeyLess(a: SortKey, b: SortKey) {
    BytesLess(a.frac, b.frac) || (a.frac == b.frac && a.peer < b.peer)
  }

  lemma {:induction false} KeyTotal(a: SortKey, b: SortKey)
    ensures KeyLess(a, b) || a == b || KeyLess(b, a)
    ensures !(KeyLess(a, b) && KeyLess(b, a)) && !KeyLess(a, a)
  {
    BytesTotal(a.frac, b.frac);
    BytesTotal(a.frac, a.frac);
  }

  lemma {:induction false} KeyTransitive(a: SortKey, b: SortKey, c: SortKey)
    requires KeyLess(a, b) && KeyLess(b, c)
    ensures KeyLess(a, c)
  {
    if BytesLess(a.frac, b.frac) && BytesLess(b.frac, c.frac) {
      BytesTransitive(a.frac, b.frac, c.frac);
    }
  }

  /** Digits past the end read as zero. */
  function Digit(s: Frac, i: nat): Byte {
    if i < |s| then s[i] else 0
  }

  function Drop(s: Frac, i: nat): Frac {
    if i <= |s| then s[i..] else []
  }

  /** The key chosen when nothing bounds it from above. */
  function KeyOpen(lo: Frac): Frac {
    var a := Digit(lo, 0);
    if a < 255 then [(a + 256) / 2] else [a] + KeyOpen(lo[1..])
  }

  /** The key chosen from digit `i` on, between two given ends. */
  function KeyClosed(lo: Frac, hi: Frac, i: nat, cap: nat): Frac
    decreases cap + 1 - i
  {
    if i > cap then [128]
    else
      var a, b := Digit(lo, i), Digit(hi, i);
      if a + 1 < b then [(a + b) / 2]
      else if a < b then [a] + KeyOpen(Drop(lo, i + 1))
      else [a] + KeyClosed(lo, hi, i + 1, cap)
  }

  /** `key_between` as a function; an open lower end acts like the empty key. */
  function Between(lo: Option<Frac>, hi: Option<Frac>): Frac {
    var l := if lo.Some? then lo.value else [];
    Rest(l, hi, 0, |l| + (if hi.Some? then |hi.value| else 0) + 2)
  }

  function Rest(l: Frac, hi: Option<Frac>, i: nat, cap: nat): Frac {
    if hi.None? then KeyOpen(Drop(l, i)) else KeyClosed(l, hi.value, i, cap)
  }

  /** One digit of either scan, behind the digits found so far. */
  lemma {:induction false} RestStep(front: Frac, l: Frac, hi: Option<Frac>, i: nat, cap: nat)
    requires i <= cap
    ensures var a: int, b: int := Digit(l, i), if hi.Some? then Digit(hi.value, i) else 256;
            front + Rest(l, hi, i, cap)
            == if a + 1 < b then front + [(a + b) / 2]
               else if a < b then (front + [a]) + KeyOpen(Drop(l, i + 1))
               else (front + [a]) + Rest(l, hi, i + 1, cap)
  {
    if hi.None? {
      assert Digit(Drop(l, i), 0) == Digit(l, i);
      assert i < |l| ==> Drop(l, i)[1..] == Drop(l, i + 1);
    }
  }

  method KeyBetween(lo: Option<Frac>, hi: Option<Frac>) returns (key: Frac)
    ensures key == Between(lo, hi)
    decreases hi.Some?, if lo.Some? then |lo.value| else 0
  {
    hide KeyOpen, KeyClosed, Rest;
    var result: Frac := [];
    var i: nat := 0;
    var cap := (if lo.Some? then |lo.value| else 0) + (if hi.Some? then |hi.value| else 0) + 2;
    ghost var l := if lo.Some? then lo.value else [];
    while i <= cap
      invariant 0 <= i <= cap + 1
      invariant result + Rest(l, hi, i, cap) == Between(lo, hi)
      invariant hi.None? ==> i == 0
    {
      RestStep(result, l, hi, i, cap);
      var a: int := if lo.Some? && i < |lo.value| then lo.value[i] else 0;
      var b: int := if hi.Some? then (if i < |hi.value| then hi.value[i] else 0) else 256;
      if a + 1 < b {
        result := result + [(a + b) / 2];
        return result;
      }
      result := result + [a];
      i := i + 1;
      if a < b {
        var loTail: Frac := if lo.Some? && i <= |lo.value| then lo.value[i..] else [];
        assert loTail == Drop(l, i);
        var rest := KeyBetween(Some(loTail), None);
        BetweenOpen(loTail);
        result := result + rest;
        return result;
      }
    }
    RestEnd(l, hi, i, cap);
    result := result + [128];
    return result;
  }

  lemma {:induction false} RestEnd(l: Frac, hi: Option<Frac>, i: nat, cap: nat)
    requires i > cap && hi.Some?
    ensures Rest(l, hi, i, cap) == [128]
  {
  }

  lemma {:induction false} BetweenOpen(lo: Frac)
    ensures Between(Some(lo), None) == KeyOpen(lo)
  {
    assert Drop(lo, 0) == lo;
  }

  /** A key that `key_between` may take as a neighbour: it does not end in a zero byte. */
  predicate Proper(s: Frac) {
    s != [] && s[|s| - 1] != 0
  }

  /** `hi` is `lo` followed by zeros only: no key lies between them. */
  predicate ZeroTail(lo: Frac, hi: Frac) {
    |lo| <= |hi| && hi[..|lo|] == lo && forall i :: |lo| <= i < |hi| ==> hi[i] == 0
  }

  /** `lo` is below `hi` from digit `i` on, reading missing digits as zeros. */
  predicate PadLess(lo: Frac, hi: Frac, i: nat)
    decreases |hi| - i
  {
    i < |hi| && (Digit(lo, i) < hi[i] || (Digit(lo, i) == hi[i] && PadLess(lo, hi, i + 1)))
  }

  lemma {:induction false} OpenAbove(lo: Frac)
    ensures BytesLess(lo, KeyOpen(lo)) && Proper(KeyOpen(lo))
  {
    if Digit(lo, 0) == 255 {
      OpenAbove(lo[1..]);
      assert KeyOpen(lo)[1..] == KeyOpen(lo[1..]);
    }
  }

  lemma {:induction false} ClosedProper(lo: Frac, hi: Frac, i: nat, cap: nat)
    ensures Proper(KeyClosed(lo, hi, i, cap))
    decreases cap + 1 - i
  {
    if i <= cap {
      var a: int, b: int := Digit(lo, i), Digit(hi, i);
      if a + 1 == b {
        OpenAbove(Drop(lo, i + 1));
      } else if a >= b {
        ClosedProper(lo, hi, i + 1, cap);
      }
    }
  }

  /** With room between the ends, the key is strictly inside. */
  lemma {:induction false} ClosedInside(lo: Frac, hi: Frac, i: nat, cap: nat)
    requires PadLess(lo, hi, i) && cap >= |lo| + |hi|
    ensures BytesLess(Drop(lo, i), KeyClosed(lo, hi, i, cap)) && BytesLess(KeyClosed(lo, hi, i, cap), Drop(hi, i))
    decreases |hi| - i
  {
    var a: int, b: int := Digit(lo, i), Digit(hi, i);
    var k := KeyClosed(lo, hi, i, cap);
    assert Drop(lo, i) != [] ==> Drop(lo, i)[0] == a && Drop(lo, i)[1..] == Drop(lo, i + 1);
    assert Drop(hi, i)[0] == b && Drop(hi, i)[1..] == Drop(hi, i + 1);
    if a + 1 == b {
      OpenAbove(Drop(lo, i + 1));
      assert k[1..] == KeyOpen(Drop(lo, i + 1));
    } else if a == b {
      ClosedInside(lo, hi, i + 1, cap);
      assert k[1..] == KeyClosed(lo, hi, i + 1, cap);
    }
  }

  /** Without room, the key is not below the upper end. */
  lemma {:induction false} ClosedOutside(lo: Frac, hi: Frac, i: nat, cap: nat)
    requires !PadLess(lo, hi, i) && cap >= |lo| + |hi|
    ensures !BytesLess(KeyClosed(lo, hi, i, cap), Drop(hi, i))
    decreases |hi| - i
  {
    if i < |hi| {
      var a, b := Digit(lo, i), Digit(hi, i);
      assert Drop(hi, i)[0] == b && Drop(hi, i)[1..] == Drop(hi, i + 1);
      if a == b {
        ClosedOutside(lo, hi, i + 1, cap);
        assert KeyClosed(lo, hi, i, cap)[1..] == KeyClosed(lo, hi, i + 1, cap);
      }
    }
  }

  /** Reading missing digits as zeros loses exactly the pairs that differ by zeros. */
  lemma {:induction false} PadLessIff(lo: Frac, hi: Frac, i: nat)
    ensures PadLess(lo, hi, i) <==> BytesLess(Drop(lo, i), Drop(hi, i)) && !ZeroTail(Drop(lo, i), Drop(hi, i))
    decreases |hi| - i
  {
    var l, h := Drop(lo, i), Drop(hi, i);
    if i < |hi| {
      PadLessIff(lo, hi, i + 1);
      assert h[0] == hi[i] && h[1..] == Drop(hi, i + 1);
      if i < |lo| {
        assert l[0] == lo[i] && l[1..] == Drop(lo, i + 1);
        TailSplit(l, h);
      } else {
        assert l == [] && Drop(lo, i + 1) == [];
        assert ZeroTail([], h) <==> h[0] == 0 && ZeroTail([], h[1..]) by {
          assert forall j :: 0 <= j < |h| - 1 ==> h[1..][j] == h[j + 1];
          if h[0] == 0 && ZeroTail([], h[1..]) {
            forall j | 0 <= j < |h| ensures h[j] == 0 {
              if j > 0 { assert h[1..][j - 1] == 0; }
            }
          }
        }
        assert BytesLess(l, h) && (h[1..] != [] ==> BytesLess([], h[1..]));
      }
    }
  }

  lemma {:induction false} TailSplit(l: Frac, h: Frac)
    requires l != [] && h != []
    ensures ZeroTail(l, h) <==> l[0] == h[0] && ZeroTail(l[1..], h[1..])
  {
    assert l == [l[0]] + l[1..] && h == [h[0]] + h[1..];
    assert forall j :: 0 <= j < |h| - 1 ==> h[1..][j] == h[j + 1];
    if |l| <= |h| {
      assert h[1..][..|l| - 1] == h[..|l|][1..];
      assert h[..|l|] == [h[0]] + h[1..][..|l| - 1];
      if l[0] == h[0] && ZeroTail(l[1..], h[1..]) {
        forall j | |l| <= j < |h| ensures h[j] == 0 {
          assert h[1..][j - 1] == 0;
        }
      }
    }
  }

  predicate StrictlyBetween(lo: Option<Frac>, key: Frac, hi: Option<Frac>) {
    && (lo.Some? ==> BytesLess(lo.value, key))
    && (hi.Some? ==> BytesLess(key, hi.value))
  }

  /** `key_between` lands strictly between its ends exactly when the lower end is below the
      upper end and the upper end is not the lower one padded with zeros. */
  lemma {:induction false} BetweenIff(lo: Frac, hi: Frac)
    ensures StrictlyBetween(Some(lo), Between(Some(lo), Some(hi)), Some(hi))
            <==> BytesLess(lo, hi) && !ZeroTail(lo, hi)
  {
    var cap := |lo| + |hi| + 2;
    PadLessWhole(lo, hi);
    ClosedIff(lo, hi, cap);
    BetweenClosed(lo, hi);
  }

  lemma {:induction false} BetweenClosed(lo: Frac, hi: Frac)
    ensures Between(Some(lo), Some(hi)) == KeyClosed(lo, hi, 0, |lo| + |hi| + 2)
  {
    RestClosed(lo, hi, 0, |lo| + |hi| + 2);
  }

  lemma {:induction false} RestClosed(lo: Frac, hi: Frac, i: nat, cap: nat)
    ensures Rest(lo, Some(hi), i, cap) == KeyClosed(lo, hi, i, cap)
  {
  }

  lemma {:induction false} PadLessWhole(lo: Frac, hi: Frac)
    ensures PadLess(lo, hi, 0) <==> BytesLess(lo, hi) && !ZeroTail(lo, hi)
  {
    PadLessIff(lo, hi, 0);
    assert Drop(lo, 0) == lo && Drop(hi, 0) == hi;
  }

  lemma {:induction false} ClosedIff(lo: Frac, hi: Frac, cap: nat)
    requires cap >= |lo| + |hi|
    ensures BytesLess(lo, KeyClosed(lo, hi, 0, cap)) && BytesLess(KeyClosed(lo, hi, 0, cap), hi) <==> PadLess(lo, hi, 0)
  {
    assert Drop(lo, 0) == lo && Drop(hi, 0) == hi;
    if PadLess(lo, hi, 0) {
      ClosedInside(lo, hi, 0, cap);
    } else {
      ClosedOutside(lo, hi, 0, cap);
    }
  }

  /** Hence it always succeeds between neighbours that `key_between` itself made, and its
      result is again such a neighbour. */
  lemma {:induction false} BetweenProper(lo: Option<Frac>, hi: Option<Frac>)
    requires hi.Some? ==> Proper(hi.value)
    requires lo.Some? && hi.Some? ==> BytesLess(lo.value, hi.value)
    ensures StrictlyBetween(lo, Between(lo, hi), hi) && Proper(Between(lo, hi))
  {
    var l := if lo.Some? then lo.value else [];
    if hi.None? {
      assert Drop(l, 0) == l;
      OpenAbove(l);
    } else {
      ClosedProper(l, hi.value, 0, |l| + |hi.value| + 2);
      BetweenIff(l, hi.value);
      assert BytesLess(l, hi.value);
      if ZeroTail(l, hi.value) {
        assert |l| == |hi.value|;
        assert l == hi.value;
        BytesTotal(l, l);
      }
    }
  }

  /** Equal neighbours, which two peers can create at once, leave no room: the new key
      lands behind both. */
  lemma {:induction false} EqualEndsFallThrough(k: Frac)
    ensures !StrictlyBetween(Some(k), Between(Some(k), Some(k)), Some(k))
    ensures BytesLess(k, Between(Some(k), Some(k)))
  {
    BytesTotal(k, k);
    BetweenIff(k, k);
    EqualEndsRun(k, 0, |k| + |k| + 2);
    assert Drop(k, 0) == k;
  }

  lemma {:induction false} EqualEndsRun(k: Frac, i: nat, cap: nat)
    requires cap >= |k|
    ensures BytesLess(Drop(k, i), KeyClosed(k, k, i, cap))
    decreases cap + 1 - i
  {
    if i <= cap {
      EqualEndsRun(k, i + 1, cap);
      assert KeyClosed(k, k, i, cap)[1..] == KeyClosed(k, k, i + 1, cap);
      assert i < |k| ==> Drop(k, i)[0] == k[i] && Drop(k, i)[1..] == Drop(k, i + 1);
    }
  }

  /** `_cmp_sort`: compare byte by byte, then by length, then by peer. */
  method CmpSort(a: SortKey, b: SortKey) returns (c: int)
    ensures c == if KeyLess(a, b) then -1 else if a == b then 0 else 1
  {
    var n := if |a.frac| < |b.frac| then |a.frac| else |b.frac|;
    KeyTotal(a, b);
    BytesTotal(a.frac, b.frac);
    assert a.frac[0..] == a.frac && b.frac[0..] == b.frac;
    for i := 0 to n
      invariant a.frac[..i] == b.frac[..i]
      invariant BytesLess(a.frac, b.frac) <==> BytesLess(a.frac[i..], b.frac[i..])
      invariant BytesLess(b.frac, a.frac) <==> BytesLess(b.frac[i..], a.frac[i..])
    {
      assert a.frac[i..][1..] == a.frac[i + 1..] && b.frac[i..][1..] == b.frac[i + 1..];
      if a.frac[i] != b.frac[i] {
        return if a.frac[i] < b.frac[i] then -1 else 1;
      }
    }
    if |a.frac| != |b.frac| {
      return if |a.frac| < |b.frac| then -1 else 1;
    }
    return if a.peer < b.peer then -1 else if a.peer > b.peer then 1 else 0;
  }

  // ----- which key it is -----

  /** The first `n` digits, zeros past the end. */
  function Padded(s: Frac, n: nat): Frac {
    seq(n, i requires 0 <= i < n => Digit(s, i))
  }

  /** What the digit at `n` has to stay below: the upper end's digit, until an earlier digit
      already lies below it. */
  ghost function Bound(l: Frac, hi: Option<Frac>, n: nat): (b: int)
    ensures 0 <= b <= 256
  {
    if hi.None? || exists j :: 0 <= j < n && Digit(l, j) < Digit(hi.value, j) then 256 else Digit(hi.value, n)
  }

  /** The key copies the lower end up to the first digit with room above it and puts the digit
      midway there. */
  ghost predicate Midway(l: Frac, hi: Option<Frac>, n: nat, key: Frac) {
    && Digit(l, n) + 1 < Bound(l, hi, n)
    && (forall j :: 0 <= j < n ==> Digit(l, j) + 1 >= Bound(l, hi, j))
    && key == Padded(l, n) + [(Digit(l, n) + Bound(l, hi, n)) / 2]
  }

  lemma {:induction false} PaddedStep(l: Frac, n: nat)
    ensures Padded(l, n + 1) == Padded(l, n) + [Digit(l, n)]
  {
  }

  /** Without an upper end left, from digit `i` on. */
  lemma {:induction false} OpenMidway(l: Frac, hi: Option<Frac>, i: nat) returns (n: nat)
    requires hi.None? || exists j :: 0 <= j < i && Digit(l, j) < Digit(hi.value, j)
    requires forall j :: 0 <= j < i ==> Digit(l, j) + 1 >= Bound(l, hi, j)
    ensures Midway(l, hi, n, Padded(l, i) + KeyOpen(Drop(l, i)))
    decreases if i <= |l| then |l| + 1 - i else 0
  {
    var rest := Drop(l, i);
    assert Digit(rest, 0) == Digit(l, i);
    assert Bound(l, hi, i) == 256;
    if Digit(l, i) < 255 {
      n := i;
    } else {
      assert i < |l| && rest[1..] == Drop(l, i + 1);
      PaddedStep(l, i);
      assert Padded(l, i) + KeyOpen(rest) == Padded(l, i + 1) + KeyOpen(Drop(l, i + 1));
      n := OpenMidway(l, hi, i + 1);
    }
  }

  /** Some digit from `i` on leaves room upwards. */
  ghost predicate Parts(l: Frac, h: Frac, i: nat, cap: nat) {
    exists j :: i <= j <= cap && Digit(l, j) < Digit(h, j)
  }

  ghost predicate IsMidway(l: Frac, hi: Option<Frac>, key: Frac) {
    exists n :: Midway(l, hi, n, key)
  }

  lemma {:induction false} PartsStep(l: Frac, h: Frac, i: nat, cap: nat)
    requires i <= cap
    ensures Parts(l, h, i, cap) <==> Digit(l, i) < Digit(h, i) || Parts(l, h, i + 1, cap)
  {
  }

  /** Between two ends, from digit `i` on. */
  lemma {:induction false} ClosedMidway(l: Frac, h: Frac, i: nat, cap: nat)
    requires i <= cap + 1 && forall j :: 0 <= j < i ==> Digit(l, j) >= Digit(h, j)
    ensures var key := Padded(l, i) + KeyClosed(l, h, i, cap);
            if Parts(l, h, i, cap) then IsMidway(l, Some(h), key) else key == Padded(l, cap + 1) + [128]
    decreases cap + 1 - i
  {
    var key := Padded(l, i) + KeyClosed(l, h, i, cap);
    if i <= cap {
      PartsStep(l, h, i, cap);
      ClosedStep(l, h, i, cap);
      hide KeyOpen, KeyClosed, Parts, Padded, Bound, Midway;
      if Digit(l, i) < Digit(h, i) {
        PartsHere(l, h, i, cap);
      } else {
        ClosedMidway(l, h, i + 1, cap);
      }
    }
  }

  lemma {:induction false} ClosedStep(l: Frac, h: Frac, i: nat, cap: nat)
    requires i <= cap
    ensures Digit(l, i) >= Digit(h, i) ==>
              Padded(l, i) + KeyClosed(l, h, i, cap) == Padded(l, i + 1) + KeyClosed(l, h, i + 1, cap)
  {
    PaddedStep(l, i);
    hide Padded, Digit;
    assert Digit(l, i) >= Digit(h, i) ==> KeyClosed(l, h, i, cap) == [Digit(l, i)] + KeyClosed(l, h, i + 1, cap);
  }

  lemma {:induction false} PartsHere(l: Frac, h: Frac, i: nat, cap: nat)
    requires i <= cap && Digit(l, i) < Digit(h, i) && forall j :: 0 <= j < i ==> Digit(l, j) >= Digit(h, j)
    ensures IsMidway(l, Some(h), Padded(l, i) + KeyClosed(l, h, i, cap))
  {
    BoundsBefore(l, h, i);
    if (Digit(l, i) as int) + 1 < Digit(h, i) {
      assert KeyClosed(l, h, i, cap) == [(Digit(l, i) + Digit(h, i)) / 2];
      hide Padded, KeyClosed, Bound, Digit;
      assert Midway(l, Some(h), i, Padded(l, i) + KeyClosed(l, h, i, cap));
    } else {
      NarrowStep(l, h, i, cap);
      hide Padded, KeyClosed, KeyOpen, Bound, Digit, Midway;
      var n := OpenMidway(l, Some(h), i + 1);
    }
  }

  lemma {:induction false} BoundsBefore(l: Frac, h: Frac, i: nat)
    requires forall j :: 0 <= j < i ==> Digit(l, j) >= Digit(h, j)
    ensures forall j :: 0 <= j <= i ==> Bound(l, Some(h), j) == Digit(h, j)
  {
    hide Digit;
  }

  lemma {:induction false} NarrowStep(l: Frac, h: Frac, i: nat, cap: nat)
    requires i <= cap && Digit(l, i) < Digit(h, i) <= Digit(l, i) as int + 1
    ensures Padded(l, i) + KeyClosed(l, h, i, cap) == Padded(l, i + 1) + KeyOpen(Drop(l, i + 1))
  {
    PaddedStep(l, i);
    hide Padded, Digit, KeyOpen;
    assert KeyClosed(l, h, i, cap) == [Digit(l, i)] + KeyOpen(Drop(l, i + 1));
  }

  /** Which key it is, to the byte: midway at the first digit with room, or, when no digit of
      the lower end lies below the upper one, the padded lower end and 128. */
  lemma {:induction false} BetweenIs(lo: Option<Frac>, hi: Option<Frac>)
    ensures var l := if lo.Some? then lo.value else [];
            var cap := |l| + (if hi.Some? then |hi.value| else 0) + 2;
            if hi.None? || Parts(l, hi.value, 0, cap) then IsMidway(l, hi, Between(lo, hi))
            else Between(lo, hi) == Padded(l, cap + 1) + [128]
  {
    var l := if lo.Some? then lo.value else [];
    assert Padded(l, 0) + Between(lo, hi) == Between(lo, hi);
    hide Padded, Parts, KeyClosed, KeyOpen, Midway, Bound;
    if hi.None? {
      var n := OpenMidway(l, hi, 0);
    } else {
      ClosedMidway(l, hi.value, 0, |l| + |hi.value| + 2);
    }
  }

  /** The two conditions leave one key. */
  lemma {:induction false} MidwayUnique(l: Frac, hi: Option<Frac>, m: nat, n: nat, x: Frac, y: Frac)
    requires Midway(l, hi, m, x) && Midway(l, hi, n, y)
    ensures m == n && x == y
  {
  }
}
