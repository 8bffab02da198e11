/** Facts about duplicate-free sequences and about keeping only some of their elements. */
module Sequences {

  predicate Distinct<T(==)>(s: seq<T>) {
    forall i, j :: 0 <= i < j < |s| ==> s[i] != s[j]
  }

  function Elements<T>(s: seq<T>): set<T> {
    set x | x in s
  }

  /** The elements of `s` that belong to `keep`, in their order. */
  function Restrict<T(==)>(s: seq<T>, keep: set<T>): seq<T> {
    if s == [] then [] else (if s[0] in keep then [s[0]] else []) + Restrict(s[1..], keep)
  }

  lemma {:induction false} RestrictMembers<T>(s: seq<T>, keep: set<T>)
    ensures forall x :: x in Restrict(s, keep) ==> x in s && x in keep
    ensures forall x :: x in s && x in keep ==> x in Restrict(s, keep)
  {
    if s != [] {
      RestrictMembers(s[1..], keep);
    }
  }

  /** The first position of `x`. */
  function IndexOf<T(==)>(s: seq<T>, x: T): (i: nat)
    requires x in s
    ensures i < |s| && s[i] == x
    ensures forall j :: 0 <= j < i ==> s[j] != x
  {
    if s[0] == x then 0 else 1 + IndexOf(s[1..], x)
  }

  /** `s` without position `i`. */
  function Cut<T>(s: seq<T>, i: nat): seq<T>
    requires i < |s|
  {
    s[..i] + s[i + 1..]
  }

  lemma {:induction false} CutIndex<T>(s: seq<T>, i: nat)
    requires i < |s|
    ensures |Cut(s, i)| == |s| - 1
    ensures forall k :: 0 <= k < |s| - 1 ==> Cut(s, i)[k] == if k < i then s[k] else s[k + 1]
  {
  }

  lemma {:induction false} CutDistinct<T>(s: seq<T>, i: nat)
    requires Distinct(s) && i < |s|
    ensures Distinct(Cut(s, i)) && s[i] !in Cut(s, i) && Insert(Cut(s, i), i, s[i]) == s
    ensures forall j :: 0 <= j < |s| && j != i ==>
              s[j] in Cut(s, i) && IndexOf(Cut(s, i), s[j]) == if i < j then j - 1 else j
  {
    var r := Cut(s, i);
    CutIndex(s, i);
    assert Insert(r, i, s[i]) == s;
    hide Cut;
    assert Distinct(r);
    forall j | 0 <= j < |s| && j != i
      ensures s[j] in r && IndexOf(r, s[j]) == if i < j then j - 1 else j
    {
      var k := if i < j then j - 1 else j;
      assert r[k] == s[j];
      DistinctIndex(r, k);
    }
  }

  lemma {:induction false} CutMember<T>(s: seq<T>, i: nat, x: T)
    requires i < |s| && x in s && x != s[i]
    ensures x in Cut(s, i)
  {
    var j :| 0 <= j < |s| && s[j] == x;
    assert Cut(s, i)[if i < j then j - 1 else j] == x;
  }

  /** `s` with the first `x` taken out. */
  function Lift<T(==)>(s: seq<T>, x: T): seq<T>
    requires x in s
  {
    Cut(s, IndexOf(s, x))
  }

  /** `s` with `x` put at position `i`. */
  function Insert<T>(s: seq<T>, i: nat, x: T): seq<T>
    requires i <= |s|
  {
    s[..i] + [x] + s[i..]
  }

  lemma {:induction false} LiftInsert<T>(s: seq<T>, i: nat, x: T)
    requires i <= |s| && Distinct(s) && x !in s
    ensures Distinct(Insert(s, i, x)) && Elements(Insert(s, i, x)) == Elements(s) + {x}
    ensures x in Insert(s, i, x) && IndexOf(Insert(s, i, x), x) == i && Lift(Insert(s, i, x), x) == s
  {
    var r := Insert(s, i, x);
    assert r[i] == x;
    assert Distinct(r);
    DistinctIndex(r, i);
    forall y ensures y in r <==> y in s || y == x {
      assert s == s[..i] + s[i..];
    }
  }

  lemma {:induction false} LiftDistinct<T>(s: seq<T>, x: T)
    requires Distinct(s) && x in s
    ensures Distinct(Lift(s, x)) && Elements(Lift(s, x)) == Elements(s) - {x} && |Lift(s, x)| == |s| - 1
    ensures Insert(Lift(s, x), IndexOf(s, x), x) == s
  {
    CutDistinct(s, IndexOf(s, x));
    forall y ensures y in Lift(s, x) <==> y in s && y != x {
    }
  }

  /** Lifting one element out is restricting to the others. */
  lemma {:induction false} RestrictLift<T>(s: seq<T>, x: T)
    requires Distinct(s) && x in s
    ensures Restrict(s, Elements(s) - {x}) == Lift(s, x)
  {
    var keep := Elements(s) - {x};
    if s[0] == x {
      RestrictAll(s[1..], keep);
    } else {
      RestrictLift(s[1..], x);
      RestrictSame(s[1..], keep, Elements(s[1..]) - {x});
      assert Lift(s, x) == [s[0]] + Lift(s[1..], x);
    }
  }

  lemma {:induction false} RestrictAppend<T>(a: seq<T>, b: seq<T>, keep: set<T>)
    ensures Restrict(a + b, keep) == Restrict(a, keep) + Restrict(b, keep)
  {
    if a == [] {
      assert a + b == b;
    } else {
      assert (a + b)[0] == a[0] && (a + b)[1..] == a[1..] + b;
      RestrictAppend(a[1..], b, keep);
      var head := if a[0] in keep then [a[0]] else [];
      assert head + (Restrict(a[1..], keep) + Restrict(b, keep)) == (head + Restrict(a[1..], keep)) + Restrict(b, keep);
    }
  }

  lemma {:induction false} RestrictAll<T>(s: seq<T>, keep: set<T>)
    requires Elements(s) <= keep
    ensures Restrict(s, keep) == s
  {
    if s != [] {
      assert s[0] in Elements(s);
      RestrictAll(s[1..], keep);
    }
  }

  lemma {:induction false} RestrictNone<T>(s: seq<T>, keep: set<T>)
    requires Elements(s) !! keep
    ensures Restrict(s, keep) == []
  {
    if s != [] {
      assert s[0] in Elements(s);
      RestrictNone(s[1..], keep);
    }
  }

  /** Only the part of `keep` that occurs in `s` matters. */
  lemma {:induction false} RestrictSame<T>(s: seq<T>, a: set<T>, b: set<T>)
    requires forall x :: x in s ==> (x in a <==> x in b)
    ensures Restrict(s, a) == Restrict(s, b)
  {
    if s != [] {
      RestrictSame(s[1..], a, b);
    }
  }

  lemma {:induction false} RestrictTwice<T>(s: seq<T>, a: set<T>, b: set<T>)
    ensures Restrict(Restrict(s, a), b) == Restrict(s, a * b)
  {
    if s != [] {
      RestrictTwice(s[1..], a, b);
      RestrictAppend(if s[0] in a then [s[0]] else [], Restrict(s[1..], a), b);
    }
  }

  lemma {:induction false} RestrictDistinct<T>(s: seq<T>, keep: set<T>)
    requires Distinct(s)
    ensures Distinct(Restrict(s, keep))
  {
    if s != [] {
      RestrictDistinct(s[1..], keep);
      RestrictMembers(s[1..], keep);
      assert s[0] !in s[1..];
    }
  }

  lemma {:induction false} DistinctSize<T>(s: seq<T>)
    requires Distinct(s)
    ensures |Elements(s)| == |s|
  {
    if s != [] {
      DistinctSize(s[1..]);
      assert s == [s[0]] + s[1..];
      assert Elements(s) == {s[0]} + Elements(s[1..]);
      assert s[0] !in s[1..];
    }
  }

  lemma {:induction false} DistinctIndex<T>(s: seq<T>, i: nat)
    requires Distinct(s) && i < |s|
    ensures IndexOf(s, s[i]) == i
  {
  }

  /** In duplicate-free text the place of a symbol fixes where to cut. */
  lemma {:induction false} CutAt<T>(a: seq<T>, b: seq<T>, c: seq<T>, d: seq<T>)
    requires a + b == c + d
    requires a != [] && c != [] && a[|a| - 1] == c[|c| - 1]
    requires Distinct(a + b)
    ensures a == c && b == d
  {
    var s := a + b;
    assert s[|a| - 1] == a[|a| - 1] && s[|c| - 1] == (c + d)[|c| - 1] == c[|c| - 1];
    assert |a| == |c|;
    assert a == s[..|a|] && c == s[..|c|] && b == s[|a|..] && d == s[|c|..];
  }

  lemma {:induction false} IndexInFront<T>(a: seq<T>, b: seq<T>, x: T)
    requires x in a
    ensures x in a + b && IndexOf(a + b, x) == IndexOf(a, x)
    decreases |a|
  {
    if a[0] != x {
      IndexInFront(a[1..], b, x);
      assert (a + b)[1..] == a[1..] + b;
    }
  }
}
