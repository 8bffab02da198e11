/** The dotted version frontier of `src/lazily/lossless_tree_crdt.py`: per peer, exactly
    which operation counters have been observed, holes included. */
module VersionFrontier {

  /** A dotted operation id, ordered by counter and then by peer. */
  datatype OpId = OpId(counter: nat, peer: nat)

  const ROOT := OpId(0, 0)

  predicate IdLess(a: OpId, b: OpId) {
    a.counter < b.counter || (a.counter == b.counter && a.peer < b.peer)
  }

  /** The fields of one `DotRange`: a contiguous prefix and the counters beyond a hole. */
  datatype Dots = Dots(contiguous: nat, sparse: set<nat>)

  predicate Contains(d: Dots, counter: nat) {
    counter <= d.contiguous || counter in d.sparse
  }

  /** The loop that folds a run of sparse counters into the prefix. */
  function Absorb(d: Dots): Dots
    decreases |d.sparse|
  {
    if d.contiguous + 1 in d.sparse then
      Absorb(Dots(d.contiguous + 1, d.sparse - {d.contiguous + 1}))
    else d
  }

  function Observed(d: Dots, counter: nat): Dots {
    if counter <= d.contiguous then d else Absorb(d.(sparse := d.sparse + {counter}))
  }

  /** Sparse counters all lie beyond a hole. */
  predicate Canonical(d: Dots) {
    forall c :: c in d.sparse ==> c > d.contiguous + 1
  }

  lemma {:induction false} AbsorbKeeps(d: Dots, counter: nat)
    ensures Contains(Absorb(d), counter) <==> Contains(d, counter)
    decreases |d.sparse|
  {
    if d.contiguous + 1 in d.sparse {
      AbsorbKeeps(Dots(d.contiguous + 1, d.sparse - {d.contiguous + 1}), counter);
    }
  }

  /** Absorbing yields the canonical form exactly when no sparse counter lies inside the
      prefix. A range loaded from the wire with such a counter stays uncanonical, and is
      then unequal to the range that observed the same counters one by one. */
  lemma {:induction false} AbsorbCanonicalIff(d: Dots)
    ensures Canonical(Absorb(d)) <==> forall c :: c in d.sparse ==> c > d.contiguous
    decreases |d.sparse|
  {
    if d.contiguous + 1 in d.sparse {
      var next := Dots(d.contiguous + 1, d.sparse - {d.contiguous + 1});
      AbsorbCanonicalIff(next);
      assert forall c :: c in d.sparse ==> c in next.sparse || c == d.contiguous + 1;
      assert forall c :: c in next.sparse ==> c in d.sparse && c != d.contiguous + 1;
    }
  }

  /** Observing adds one counter to the set and keeps the form canonical. */
  lemma {:induction false} ObservedAdds(d: Dots, counter: nat)
    requires Canonical(d)
    ensures Canonical(Observed(d, counter))
    ensures forall c :: Contains(Observed(d, counter), c) <==> Contains(d, c) || c == counter
  {
    if counter > d.contiguous {
      var grown := d.(sparse := d.sparse + {counter});
      AbsorbCanonicalIff(grown);
      forall c ensures Contains(Observed(d, counter), c) <==> Contains(d, c) || c == counter {
        AbsorbKeeps(grown, c);
      }
    }
  }

  /** Canonical ranges that observed the same counters are the same range. */
  lemma {:induction false} CanonicalUnique(a: Dots, b: Dots)
    requires Canonical(a) && Canonical(b)
    requires forall c: nat | c >= 1 :: Contains(a, c) <==> Contains(b, c)
    ensures a == b
  {
    var m, n: nat := a.contiguous + 1, b.contiguous + 1;
    assert !Contains(a, m) && !Contains(b, n);
    forall c ensures c in a.sparse <==> c in b.sparse {
      assert c >= 1 ==> (Contains(a, c) <==> Contains(b, c));
    }
  }

  /** Loading what was saved gives the same range back. */
  lemma {:induction false} SavedLoads(d: Dots)
    requires Canonical(d)
    ensures Absorb(d) == d
  {
  }

  /** A range loaded with a sparse counter inside its prefix differs from the canonical
      range of the same counters. */
  lemma {:induction false} UncanonicalLoad()
    ensures Absorb(Dots(5, {3})) == Dots(5, {3})
    ensures forall c :: Contains(Dots(5, {3}), c) <==> Contains(Dots(5, {}), c)
  {
  }

  class DotRange {
    var contiguous: nat
    var sparse: set<nat>

    function Value(): Dots
      reads this
    {
      Dots(contiguous, sparse)
    }

    constructor ()
      ensures Value() == Dots(0, {})
    {
      contiguous, sparse := 0, {};
    }

    /** `from_dict`: take the fields as they come, then absorb. */
    constructor Load(contiguous: nat, sparse: set<nat>)
      ensures Value() == Absorb(Dots(contiguous, sparse))
    {
      this.contiguous, this.sparse := contiguous, sparse;
      new;
      AbsorbRun();
    }

    method Observe(counter: nat)
      modifies this
      ensures Value() == Observed(old(Value()), counter)
    {
      if counter <= contiguous {
        return;
      }
      sparse := sparse + {counter};
      AbsorbRun();
    }

    method AbsorbRun()
      modifies this
      ensures Value() == Absorb(old(Value()))
    {
      while contiguous + 1 in sparse
        invariant Absorb(Value()) == Absorb(old(Value()))
        decreases |sparse|
      {
        sparse := sparse - {contiguous + 1};
        contiguous := contiguous + 1;
      }
    }
  }

  // ----- all peers together -----

  type Frontier = map<nat, Dots>

  predicate Has(f: Frontier, id: OpId) {
    id.peer in f && Contains(f[id.peer], id.counter)
  }

  function ObservedIn(f: Frontier, id: OpId): Frontier {
    f[id.peer := Observed(if id.peer in f then f[id.peer] else Dots(0, {}), id.counter)]
  }

  function Peers(ids: set<OpId>): set<nat> {
    set id | id in ids :: id.peer
  }

  /** The frontier holds exactly the ids in `ids`, in canonical form. */
  ghost predicate Denotes(f: Frontier, ids: set<OpId>) {
    && (forall p :: p in f ==> Canonical(f[p]))
    && (forall id: OpId :: id.counter >= 1 ==> (Has(f, id) <==> id in ids))
    && f.Keys == Peers(ids)
  }

  lemma {:induction false} ObserveDenotes(f: Frontier, ids: set<OpId>, id: OpId)
    requires Denotes(f, ids) && id.counter >= 1
    ensures Denotes(ObservedIn(f, id), ids + {id})
  {
    var d := if id.peer in f then f[id.peer] else Dots(0, {});
    ObservedAdds(d, id.counter);
    var g := ObservedIn(f, id);
    forall x: OpId | x.counter >= 1
      ensures Has(g, x) <==> x in ids + {id}
    {
      if x.peer == id.peer {
        assert Has(g, x) <==> Contains(d, x.counter) || x.counter == id.counter;
        assert Has(f, x) <==> x in ids;
        if id.peer !in f { assert !Contains(d, x.counter); }
      } else {
        assert Has(g, x) <==> Has(f, x);
      }
    }
    assert Peers(ids + {id}) == Peers(ids) + {id.peer} by {
      assert id in ids + {id};
      forall p ensures p in Peers(ids + {id}) <==> p in Peers(ids) + {id.peer} {
        if p in Peers(ids) { var x :| x in ids && x.peer == p; assert x in ids + {id}; }
      }
    }
  }

  /** Two frontiers that hold the same ids are equal, field by field. */
  lemma {:induction false} DenotesUnique(f: Frontier, g: Frontier, ids: set<OpId>)
    requires Denotes(f, ids) && Denotes(g, ids)
    ensures f == g
  {
    forall p | p in f ensures p in g && f[p] == g[p] {
      assert p in Peers(ids);
      forall c: nat | c >= 1 ensures Contains(f[p], c) <==> Contains(g[p], c) {
        assert Has(f, OpId(c, p)) <==> Has(g, OpId(c, p));
      }
      CanonicalUnique(f[p], g[p]);
    }
  }

  class TreeVersionFrontier {
    var dots: map<nat, DotRange>

    /** Every peer owns a range of its own. */
    ghost predicate Valid()
      reads this
    {
      forall p, q :: p in dots && q in dots && p != q ==> dots[p] != dots[q]
    }

    ghost function Ranges(): set<DotRange>
      reads this
    {
      set p | p in dots :: dots[p]
    }

    ghost function Value(): Frontier
      reads this, Ranges()
    {
      map p | p in dots :: (assert dots[p] in Ranges(); dots[p].Value())
    }

    constructor ()
      ensures Valid() && Value() == map[] && Ranges() == {}
    {
      dots := map[];
    }

    method ContainsId(id: OpId) returns (held: bool)
      ensures held == (id.peer in dots && Contains(dots[id.peer].Value(), id.counter)) == Has(Value(), id)
    {
      if id.peer !in dots {
        return false;
      }
      var r := dots[id.peer];
      return id.counter <= r.contiguous || id.counter in r.sparse;
    }

    method Observe(id: OpId)
      requires Valid()
      modifies this, Ranges()
      ensures Valid() && Value() == ObservedIn(old(Value()), id)
      ensures fresh(Ranges() - old(Ranges()))
    {
      ghost var before := Value();
      if id.peer !in dots {
        var r := new DotRange();
        dots := dots[id.peer := r];
      }
      assert dots[id.peer] in Ranges();
      assert Value() == before[id.peer := dots[id.peer].Value()];
      dots[id.peer].Observe(id.counter);
    }
  }
}
