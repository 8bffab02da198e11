/** The longest-increasing-subsequence kernel of keyed reconciliation. */
module Lis {
  import opened Wrappers

  /** Whether `v` may follow `prev` in a strictly rising run. */
  predicate Above(prev: Option<int>, v: int) {
    prev.None? || prev.value < v
  }

  /** The documented meaning: at every position take the element or skip it, keep the
      longer branch, and take on a tie. The result is a list of positions. */
  function Best(s: seq<int>, i: nat, prev: Option<int>): seq<nat>
    requires i <= |s|
    decreases |s| - i
  {
    if i == |s| then []
    else
      var skip := Best(s, i + 1, prev);
      if Above(prev, s[i]) then
        var take := [i] + Best(s, i + 1, Some(s[i]));
        if |take| >= |skip| then take else skip
      else skip
  }

  /** `ps` are rising positions from `from` on whose values rise strictly above `prev`. */
  ghost predicate Rising(s: seq<int>, ps: seq<nat>, from: nat, prev: Option<int>) {
    && (forall a :: 0 <= a < |ps| ==> from <= ps[a] < |s| && Above(prev, s[ps[a]]))
    && (forall a, b :: 0 <= a < b < |ps| ==> ps[a] < ps[b] && s[ps[a]] < s[ps[b]])
  }

  /** Lexicographic order on position lists of one length. */
  predicate NoLater(ps: seq<nat>, qs: seq<nat>)
    requires |ps| == |qs|
  {
    ps == [] || ps[0] < qs[0] || (ps[0] == qs[0] && NoLater(ps[1..], qs[1..]))
  }

  lemma {:induction false} BestRises(s: seq<int>, i: nat, prev: Option<int>)
    requires i <= |s|
    ensures Rising(s, Best(s, i, prev), i, prev)
    decreases |s| - i
  {
    if i < |s| {
      BestRises(s, i + 1, prev);
      BestRises(s, i + 1, Some(s[i]));
    }
  }

  /** No rising run beats `Best`, and none of the same length starts earlier. */
  lemma {:induction false} BestIsLongestAndFirst(s: seq<int>, i: nat, prev: Option<int>, qs: seq<nat>)
    requires i <= |s| && Rising(s, qs, i, prev)
    ensures |qs| <= |Best(s, i, prev)|
    ensures |qs| == |Best(s, i, prev)| ==> NoLater(Best(s, i, prev), qs)
    decreases |s| - i
  {
    if qs != [] {
      assert i <= qs[0] < |s|;
      if qs[0] == i {
        BestIsLongestAndFirst(s, i + 1, Some(s[i]), qs[1..]);
      } else {
        BestIsLongestAndFirst(s, i + 1, prev, qs);
      }
    }
  }

  /** The length of the best run from `i` above `v`. */
  function Reach(s: seq<int>, i: nat, v: int): nat
    requires i <= |s|
  {
    |Best(s, i, Some(v))|
  }

  /** `heads[l]` is the greatest first value of a rising run of length `l + 1` from `i`. */
  ghost predicate HeadsFor(s: seq<int>, i: nat, heads: seq<int>)
    requires i <= |s|
  {
    && (forall l, m :: 0 <= l < m < |heads| ==> heads[l] > heads[m])
    && |heads| == |Best(s, i, None)|
    && (forall v, l :: 0 <= l < |heads| ==> (heads[l] > v <==> l < Reach(s, i, v)))
    && (forall v :: Reach(s, i, v) <= |heads|)
  }

  lemma {:induction false} HeadsStep(s: seq<int>, i: nat, heads: seq<int>, lo: nat, heads': seq<int>)
    requires i < |s| && HeadsFor(s, i + 1, heads)
    requires lo == Reach(s, i + 1, s[i])
    requires heads' == if lo == |heads| then heads + [s[i]] else heads[lo := s[i]]
    ensures HeadsFor(s, i, heads')
  {
    var x := s[i];
    forall v ensures Reach(s, i, v) == if v < x && lo + 1 >= Reach(s, i + 1, v) then lo + 1 else Reach(s, i + 1, v) {
    }
    forall v, l | 0 <= l < |heads'|
      ensures heads'[l] > v <==> l < Reach(s, i, v)
    {
      if l < lo { assert heads[l] > x; }
      if l < |heads| { assert heads[l] > v <==> l < Reach(s, i + 1, v); }
    }
    forall v ensures Reach(s, i, v) <= |heads'| {
      assert Reach(s, i + 1, v) <= |heads|;
    }
  }

  /** The keys at the given positions. */
  function Pick<K>(keys: seq<K>, ps: seq<nat>): seq<K>
    requires forall a :: 0 <= a < |ps| ==> ps[a] < |keys|
  {
    seq(|ps|, a requires 0 <= a < |ps| => keys[ps[a]])
  }

  /** The prior index of every key. */
  function Values<K(==)>(p: map<K, int>, keys: seq<K>): seq<int>
    requires forall k :: k in keys ==> k in p
  {
    seq(|keys|, i requires 0 <= i < |keys| => p[keys[i]])
  }

  /** What `lis_by` returns: the keys the take-or-skip recursion keeps. */
  function LisKeys<K(==)>(p: map<K, int>, keys: seq<K>): seq<K>
    requires forall k :: k in keys ==> k in p
  {
    BestRises(Values(p, keys), 0, None);
    Pick(keys, Best(Values(p, keys), 0, None))
  }

  /** The binary search of `lis_by`: how many heads exceed `v`. */
  method CountAbove(heads: seq<int>, v: int) returns (lo: nat)
    requires forall l, m :: 0 <= l < m < |heads| ==> heads[l] > heads[m]
    ensures lo <= |heads|
    ensures forall l :: 0 <= l < lo ==> heads[l] > v
    ensures forall l :: lo <= l < |heads| ==> heads[l] <= v
  {
    lo := 0;
    var hi := |heads|;
    while lo < hi
      invariant 0 <= lo <= hi <= |heads|
      invariant forall l :: 0 <= l < lo ==> heads[l] > v
      invariant forall l :: hi <= l < |heads| ==> heads[l] <= v
    {
      var mid := (lo + hi) / 2;
      if heads[mid] > v {
        lo := mid + 1;
      } else {
        hi := mid;
      }
    }
  }

  /** The right-to-left half of `lis_by`: the exact run length at every position. */
  method RunLengths(s: seq<int>) returns (lenStart: array<nat>, longest: nat)
    ensures fresh(lenStart) && lenStart.Length == |s|
    ensures forall j {:trigger lenStart[j]} :: 0 <= j < |s| ==> lenStart[j] == 1 + Reach(s, j + 1, s[j])
    ensures longest == |Best(s, 0, None)|
  {
    lenStart := new nat[|s|];
    var heads: seq<int> := [];
    var i := |s|;
    while i > 0
      invariant 0 <= i <= |s|
      invariant HeadsFor(s, i, heads)
      invariant forall j {:trigger lenStart[j]} :: i <= j < |s| ==> lenStart[j] == 1 + Reach(s, j + 1, s[j])
    {
      i := i - 1;
      var v := s[i];
      var lo := CountAbove(heads, v);
      HeadCount(s, i + 1, heads, v, lo);
      var length := lo + 1;
      lenStart[i] := length;
      heads := NextHeads(s, i, heads, length - 1);
    }
    longest := |heads|;
  }

  /** One update of `heads`: append, raise, or leave a head that already equals `s[i]`. */
  method NextHeads(s: seq<int>, i: nat, heads: seq<int>, idx: nat) returns (heads': seq<int>)
    requires i < |s| && HeadsFor(s, i + 1, heads)
    requires idx == Reach(s, i + 1, s[i])
    ensures HeadsFor(s, i, heads')
  {
    heads' := heads;
    var v := s[i];
    assert idx < |heads| ==> !(heads[idx] > v);
    if idx == |heads| {
      heads' := heads + [v];
    } else if v > heads[idx] {
      heads' := heads[idx := v];
    } else {
      assert heads == heads[idx := v];
    }
    HeadsStep(s, i, heads, idx, heads');
  }

  /** The exact lengths tell the greedy walk which branch the recursion takes. */
  lemma {:induction false} GreedyStep(s: seq<int>, i: nat, prev: Option<int>)
    requires i < |s|
    ensures 1 + Reach(s, i + 1, s[i]) == |Best(s, i, prev)| && Above(prev, s[i])
            ==> Best(s, i, prev) == [i] + Best(s, i + 1, Some(s[i]))
    ensures !(1 + Reach(s, i + 1, s[i]) == |Best(s, i, prev)| && Above(prev, s[i])) && Best(s, i, prev) != []
            ==> Best(s, i, prev) == Best(s, i + 1, prev)
  {
  }

  /** The left-to-right half of `lis_by`. */
  method Walk<K>(keys: seq<K>, s: seq<int>, lenStart: array<nat>, longest: nat) returns (out: seq<K>)
    requires |keys| == |s| == lenStart.Length
    requires forall j {:trigger lenStart[j]} :: 0 <= j < |s| ==> lenStart[j] == 1 + Reach(s, j + 1, s[j])
    requires longest == |Best(s, 0, None)|
    ensures forall a :: 0 <= a < |Best(s, 0, None)| ==> Best(s, 0, None)[a] < |s|
    ensures out == Pick(keys, Best(s, 0, None))
  {
    hide Best, Reach;
    out := [];
    var target, prev: Option<int> := longest, None;
    ghost var taken: seq<nat>, rest := [], Best(s, 0, None);
    BestRises(s, 0, None);
    var i := 0;
    while i < |s|
      invariant 0 <= i <= |s|
      invariant rest == Best(s, i, prev) && target == |rest|
      invariant taken + rest == Best(s, 0, None)
      invariant forall a :: 0 <= a < |taken| ==> taken[a] < |keys|
      invariant out == Pick(keys, taken)
    {
      if target == 0 {
        break;
      }
      GreedyStep(s, i, prev);
      if lenStart[i] == target && (prev.None? || s[i] > prev.value) {
        out := out + [keys[i]];
        taken, rest := taken + [i], rest[1..];
        prev := Some(s[i]);
        target := target - 1;
      }
      i := i + 1;
    }
    BestAtEnd(s, prev);
    assert rest == [];
    assert taken == Best(s, 0, None);
  }

  lemma {:induction false} BestAtEnd(s: seq<int>, prev: Option<int>)
    ensures Best(s, |s|, prev) == []
  {
  }

  /** Patience sorting from the right, then one greedy walk from the left. */
  method LisBy<K(==)>(p: map<K, int>, keys: seq<K>) returns (out: seq<K>)
    requires forall k :: k in keys ==> k in p
    ensures out == LisKeys(p, keys)
  {
    if |keys| == 0 {
      return [];
    }
    var s := Values(p, keys);
    var lenStart, longest := RunLengths(s);
    out := Walk(keys, s, lenStart, longest);
  }

  /** Where the binary search stops is the length of the best run above `v`. */
  lemma {:induction false} HeadCount(s: seq<int>, i: nat, heads: seq<int>, v: int, lo: nat)
    requires i <= |s| && HeadsFor(s, i, heads) && lo <= |heads|
    requires forall l :: 0 <= l < lo ==> heads[l] > v
    requires forall l :: lo <= l < |heads| ==> heads[l] <= v
    ensures lo == Reach(s, i, v)
  {
    var r := Reach(s, i, v);
    assert r <= |heads|;
    assert lo < |heads| ==> (heads[lo] > v <==> lo < r);
    assert r < |heads| ==> !(heads[r] > v);
  }

  /** `lis_by` keeps a longest strictly rising run and, of all the longest, the one that
      starts earliest; nothing else satisfies both. */
  lemma {:induction false} LisIsOptimal<K>(p: map<K, int>, keys: seq<K>, qs: seq<nat>)
    requires forall k :: k in keys ==> k in p
    requires Rising(Values(p, keys), qs, 0, None)
    ensures |qs| <= |LisKeys(p, keys)|
    ensures |qs| == |LisKeys(p, keys)| ==> NoLater(Best(Values(p, keys), 0, None), qs)
    ensures Rising(Values(p, keys), Best(Values(p, keys), 0, None), 0, None)
  {
    BestRises(Values(p, keys), 0, None);
    BestIsLongestAndFirst(Values(p, keys), 0, None, qs);
  }
}
