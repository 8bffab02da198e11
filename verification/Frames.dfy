/** Length-prefixed frames and what makes concatenations of them uniquely readable:
    `_frame` of `src/lazily/replay.py`. */
module Frames {
  import opened Bytes
  import opened Sequences

  const ZERO: Byte := 48
  const COLON: Byte := 58
  const MINUS: Byte := 45

  /** The decimal text of a natural number. */
  function Decimal(n: nat): Bytes {
    if n < 10 then [ZERO + n] else Decimal(n / 10) + [ZERO + n % 10]
  }

  predicate Digits(s: Bytes) {
    forall i :: 0 <= i < |s| ==> ZERO <= s[i] < ZERO + 10
  }

  /** The number a run of digits stands for. */
  function Number(s: Bytes): int
    decreases |s|
  {
    if s == [] then 0 else 10 * Number(s[..|s| - 1]) + (s[|s| - 1] - ZERO)
  }

  lemma {:induction false} DecimalReads(n: nat)
    ensures Digits(Decimal(n)) && Decimal(n) != [] && Number(Decimal(n)) == n
  {
    if n < 10 {
      assert [ZERO + n][..0] == [];
    } else {
      DecimalReads(n / 10);
      assert Decimal(n)[..|Decimal(n)| - 1] == Decimal(n / 10);
    }
  }

  /** A run of digits is empty exactly when the byte after it comes first. */
  lemma {:induction false} DigitFirst(a: Bytes, c: Byte, r: Bytes)
    requires Digits(a) && !(ZERO <= c < ZERO + 10)
    ensures |a + [c] + r| > 0 && ((a + [c] + r)[0] == c <==> a == [])
  {
    if a != [] {
      assert (a + [c] + r)[0] == a[0];
    } else {
      assert (a + [c] + r)[0] == c;
    }
  }

  /** A run of digits ends where the first other byte is. */
  lemma {:induction false} DigitsEnd(a: Bytes, b: Bytes, c: Byte, r: Bytes, s: Bytes)
    requires Digits(a) && Digits(b) && !(ZERO <= c < ZERO + 10)
    requires a + [c] + r == b + [c] + s
    ensures a == b && r == s
    decreases |a|
  {
    var x, y := a + [c] + r, b + [c] + s;
    DigitFirst(a, c, r);
    DigitFirst(b, c, s);
    if a == [] {
      assert b == [];
      assert x[1..] == r && y[1..] == s;
    } else {
      assert b != [];
      assert x[0] == a[0] && y[0] == b[0];
      assert x[1..] == a[1..] + [c] + r && y[1..] == b[1..] + [c] + s;
      DigitsEnd(a[1..], b[1..], c, r, s);
      assert a == [a[0]] + a[1..] && b == [b[0]] + b[1..];
    }
  }

  /** `_frame`: a one-byte tag, the length, a colon, the body. */
  function Frame(tag: Byte, body: Bytes): Bytes {
    [tag] + Decimal(|body|) + [COLON] + body
  }

  /** A frame can be read off the front of any bytes in one way only. */
  lemma {:induction false} FrameUnique(t: Byte, b: Bytes, r: Bytes, u: Byte, c: Bytes, s: Bytes)
    requires Frame(t, b) + r == Frame(u, c) + s
    ensures t == u && b == c && r == s
  {
    DecimalReads(|b|);
    DecimalReads(|c|);
    var x, y := Frame(t, b) + r, Frame(u, c) + s;
    assert x[0] == t && y[0] == u;
    assert x[1..] == Decimal(|b|) + [COLON] + (b + r);
    assert y[1..] == Decimal(|c|) + [COLON] + (c + s);
    DigitsEnd(Decimal(|b|), Decimal(|c|), COLON, b + r, c + s);
    assert b == (b + r)[..|b|] && c == (c + s)[..|c|] && r == (b + r)[|b|..] && s == (c + s)[|c|..];
  }

  lemma {:induction false} FrameSame(t: Byte, b: Bytes, u: Byte, c: Bytes)
    ensures Frame(t, b) == Frame(u, c) <==> t == u && b == c
  {
    if Frame(t, b) == Frame(u, c) {
      assert Frame(t, b) + [] == Frame(u, c) + [];
      FrameUnique(t, b, [], u, c, []);
    }
  }

  /** Neither word is a proper prefix of the other. */
  ghost predicate Apart(a: Bytes, b: Bytes) {
    forall r: Bytes, s: Bytes :: a + r == b + s ==> a == b
  }

  function Join(words: seq<Bytes>): Bytes
    decreases |words|
  {
    if words == [] then [] else words[0] + Join(words[1..])
  }

  lemma {:induction false} JoinSnoc(words: seq<Bytes>, w: Bytes)
    ensures Join(words + [w]) == Join(words) + w
    decreases |words|
  {
    if words == [] {
      assert [w][1..] == [];
    } else {
      assert (words + [w])[1..] == words[1..] + [w];
      JoinSnoc(words[1..], w);
    }
  }

  predicate Words(xs: seq<Bytes>) {
    forall i :: 0 <= i < |xs| ==> |xs[i]| > 0
  }

  ghost predicate AllApart(xs: seq<Bytes>, ys: seq<Bytes>) {
    forall i, j :: 0 <= i < |xs| && 0 <= j < |ys| ==> Apart(xs[i], ys[j])
  }

  lemma {:induction false} JoinEmpty(words: seq<Bytes>)
    requires Words(words)
    ensures Join(words) == [] <==> words == []
  {
    if words != [] { assert |Join(words)| >= |words[0]| > 0; }
  }

  lemma {:induction false} ApartFront(a: Bytes, r: Bytes, b: Bytes, s: Bytes)
    requires Apart(a, b) && a + r == b + s
    ensures a == b && r == s
  {
    assert r == (a + r)[|a|..] && s == (b + s)[|b|..];
  }

  /** A concatenation of words none of which begins another has one reading. */
  lemma {:induction false} JoinUnique(xs: seq<Bytes>, ys: seq<Bytes>)
    requires Words(xs) && Words(ys) && AllApart(xs, ys) && Join(xs) == Join(ys)
    ensures xs == ys
    decreases |xs|
  {
    hide Apart;
    JoinEmpty(xs);
    JoinEmpty(ys);
    if xs != [] && ys != [] {
      ApartFront(xs[0], Join(xs[1..]), ys[0], Join(ys[1..]));
      assert xs == [xs[0]] + xs[1..] && ys == [ys[0]] + ys[1..];
      JoinUnique(xs[1..], ys[1..]);
    }
  }

  // ----- sorting -----

  function Place(x: Bytes, s: seq<Bytes>): seq<Bytes>
    decreases |s|
  {
    if s == [] || !BytesLess(s[0], x) then [x] + s else [s[0]] + Place(x, s[1..])
  }

  /** `sorted` on encoded members. */
  function Sort(s: seq<Bytes>): seq<Bytes>
    decreases |s|
  {
    if s == [] then [] else Place(s[0], Sort(s[1..]))
  }

  predicate Ascending(s: seq<Bytes>) {
    forall i, j :: 0 <= i < j < |s| ==> !BytesLess(s[j], s[i])
  }

  lemma {:induction false} PlaceSorted(x: Bytes, s: seq<Bytes>)
    requires Ascending(s)
    ensures Ascending(Place(x, s)) && multiset(Place(x, s)) == multiset(s) + multiset{x}
    decreases |s|
  {
    hide BytesLess;
    if s == [] || !BytesLess(s[0], x) {
      forall j | 0 <= j < |s| ensures !BytesLess(s[j], x) {
        if j > 0 && BytesLess(s[j], x) { NotAfter(s[0], s[j], x); }
      }
    } else {
      PlaceSorted(x, s[1..]);
      var r := Place(x, s[1..]);
      assert s == [s[0]] + s[1..];
      assert forall j :: 0 < j < |s| ==> !BytesLess(s[j], s[0]);
      NoneBefore(s, x, r);
      assert Ascending([s[0]] + r);
    }
  }

  lemma {:induction false} NoneBefore(s: seq<Bytes>, x: Bytes, r: seq<Bytes>)
    requires s != [] && BytesLess(s[0], x) && multiset(r) == multiset(s[1..]) + multiset{x}
    requires forall j :: 0 < j < |s| ==> !BytesLess(s[j], s[0])
    ensures forall j :: 0 <= j < |r| ==> !BytesLess(r[j], s[0])
  {
    hide BytesLess;
    forall j | 0 <= j < |r| ensures !BytesLess(r[j], s[0]) {
      assert r[j] in multiset(r);
      if r[j] == x {
        BytesTotal(s[0], x);
      } else {
        assert r[j] in s[1..];
      }
    }
  }

  /** `a <= b` and `b < c` give `a < c`. */
  lemma {:induction false} NotAfter(a: Bytes, b: Bytes, c: Bytes)
    requires !BytesLess(b, a) && BytesLess(b, c)
    ensures BytesLess(a, c)
  {
    BytesTotal(a, b);
    if BytesLess(a, b) { BytesTransitive(a, b, c); }
  }

  lemma {:induction false} SortSorts(s: seq<Bytes>)
    ensures Ascending(Sort(s)) && multiset(Sort(s)) == multiset(s)
    decreases |s|
  {
    if s != [] {
      SortSorts(s[1..]);
      PlaceSorted(s[0], Sort(s[1..]));
      assert s == [s[0]] + s[1..];
    }
  }

  lemma {:induction false} AscendingUnique(a: seq<Bytes>, b: seq<Bytes>)
    requires Ascending(a) && Ascending(b) && multiset(a) == multiset(b)
    ensures a == b
    decreases |a|
  {
    assert |a| == |multiset(a)| == |b|;
    if a != [] {
      FirstLeast(a, b[0]) by { assert b[0] in multiset(a); }
      FirstLeast(b, a[0]) by { assert a[0] in multiset(b); }
      BytesTotal(a[0], b[0]);
      assert Ascending(a[1..]) && Ascending(b[1..]);
      hide Ascending, BytesLess;
      assert a == [a[0]] + a[1..] && b == [b[0]] + b[1..];
      assert multiset(a[1..]) == multiset(a) - multiset{a[0]} == multiset(b[1..]);
      AscendingUnique(a[1..], b[1..]);
    }
  }

  lemma {:induction false} FirstLeast(a: seq<Bytes>, x: Bytes)
    requires Ascending(a) && x in a
    ensures !BytesLess(x, a[0])
  {
    BytesTotal(x, x);
  }

  /** Sorting forgets order and nothing else. */
  lemma {:induction false} SortSameIff(a: seq<Bytes>, b: seq<Bytes>)
    ensures Sort(a) == Sort(b) <==> multiset(a) == multiset(b)
  {
    SortSorts(a);
    SortSorts(b);
    if multiset(a) == multiset(b) { AscendingUnique(Sort(a), Sort(b)); }
  }

  // ----- the same members in another order -----

  /** `p` permutes the positions `0 .. n - 1`. */
  predicate Permutes(p: seq<nat>, n: nat) {
    |p| == n && Distinct(p) && forall i :: 0 <= i < n ==> p[i] < n
  }

  ghost predicate Rearranges<T>(p: seq<nat>, xs: seq<T>, ys: seq<T>) {
    && |xs| == |ys| && Permutes(p, |xs|)
    && forall i :: 0 <= i < |xs| ==> xs[i] == ys[p[i]]
  }

  function Above(p: nat, j: nat): nat {
    if p < j then p else p + 1
  }

  lemma {:induction false} CutBag<T>(ys: seq<T>, j: nat)
    requires j < |ys|
    ensures multiset(ys) == multiset(Cut(ys, j)) + multiset{ys[j]} && |Cut(ys, j)| == |ys| - 1
  {
    assert ys == ys[..j] + [ys[j]] + ys[j + 1..];
  }

  lemma {:induction false} HeadBag<T>(xs: seq<T>)
    requires xs != []
    ensures multiset(xs) == multiset(xs[1..]) + multiset{xs[0]}
  {
    assert xs == [xs[0]] + xs[1..];
  }

  function Raised(q: seq<nat>, j: nat): seq<nat> {
    seq(|q|, i requires 0 <= i < |q| => Above(q[i], j))
  }

  lemma {:induction false} RaisedRearranges<T>(q: seq<nat>, xs: seq<T>, ys: seq<T>, j: nat)
    requires xs != [] && j < |ys| && ys[j] == xs[0] && Rearranges(q, xs[1..], Cut(ys, j))
    ensures Rearranges([j] + Raised(q, j), xs, ys)
  {
    var p := [j] + Raised(q, j);
    forall i | 0 <= i < |xs| ensures p[i] < |xs| && xs[i] == ys[p[i]] {
      if i > 0 { assert xs[1..][i - 1] == Cut(ys, j)[q[i - 1]]; }
    }
  }

  function Below(p: nat, j: nat): nat {
    if p <= j then p else p - 1
  }

  function Lowered(p: seq<nat>): seq<nat>
    requires p != []
  {
    seq(|p| - 1, i requires 0 <= i < |p| - 1 => Below(p[i + 1], p[0]))
  }

  lemma {:induction false} LoweredRearranges<T>(p: seq<nat>, xs: seq<T>, ys: seq<T>)
    requires xs != [] && Rearranges(p, xs, ys)
    ensures Rearranges(Lowered(p), xs[1..], Cut(ys, p[0]))
  {
    var j, q := p[0], Lowered(p);
    assert |Cut(ys, j)| == |ys| - 1;
    forall i | 0 <= i < |xs| - 1 ensures q[i] < |xs| - 1 && xs[1..][i] == Cut(ys, j)[q[i]] {
      assert p[i + 1] != p[0] && xs[i + 1] == ys[p[i + 1]];
    }
    forall i, k | 0 <= i < k < |q| ensures q[i] != q[k] {
      assert p[i + 1] != p[k + 1] && p[i + 1] != j && p[k + 1] != j;
    }
  }

  /** Equal multisets are rearrangements of one another. */
  lemma {:induction false} Rearrangement<T>(xs: seq<T>, ys: seq<T>) returns (p: seq<nat>)
    requires multiset(xs) == multiset(ys)
    ensures Rearranges(p, xs, ys)
    decreases |xs|
  {
    hide Rearranges;
    assert |xs| == |multiset(xs)| == |ys|;
    if xs == [] {
      p := [];
      assert Rearranges(p, xs, ys) by { NoneRearranges(xs, ys); }
    } else {
      assert xs[0] in multiset(ys);
      var j :| 0 <= j < |ys| && ys[j] == xs[0];
      CutBag(ys, j);
      HeadBag(xs);
      assert multiset(xs[1..]) == multiset(xs) - multiset{xs[0]};
      assert multiset(Cut(ys, j)) == multiset(ys) - multiset{ys[j]};
      var q := Rearrangement(xs[1..], Cut(ys, j));
      p := [j] + Raised(q, j);
      RaisedRearranges(q, xs, ys, j);
    }
  }

  lemma {:induction false} NoneRearranges<T>(xs: seq<T>, ys: seq<T>)
    requires xs == [] && ys == []
    ensures Rearranges([], xs, ys)
  {
  }

  lemma {:induction false} RearrangedSame<T>(p: seq<nat>, xs: seq<T>, ys: seq<T>)
    requires Rearranges(p, xs, ys)
    ensures multiset(xs) == multiset(ys)
    decreases |xs|
  {
    if xs != [] {
      LoweredRearranges(p, xs, ys);
      RearrangedSame(Lowered(p), xs[1..], Cut(ys, p[0]));
      CutBag(ys, p[0]);
      HeadBag(xs);
    }
  }
}
