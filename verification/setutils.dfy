/** Finite-set and relation bookkeeping of Prover9.py: folds of a family of
    sets, the power set, the pair set of a boolean table and the blocks of
    an equivalence relation given as pairs.

    A Python iterable is modelled by the sequence of its iteration order. */
module SetUtils {

  import opened Results

  // ---------------------------------------------------------------------
  // union and intersection (folds starting from the empty frozenset)
  // ---------------------------------------------------------------------

  /** `union(X)`: the fold `S |= x` over the family, starting from the empty set. */
  function Union<T(==,!new)>(family: seq<set<T>>): (r: set<T>)
    ensures forall x :: x in r <==> exists i :: 0 <= i < |family| && x in family[i]
    ensures |family| == 0 ==> r == {}
  {
    if |family| == 0 then {}
    else
      var init := family[..|family| - 1];
      assert forall i | 0 <= i < |init| :: init[i] == family[i];
      Union(init) + family[|family| - 1]
  }

  /** `intersection(X)` as written: the fold `S &= x` starts from the empty
      set, so nothing ever survives it. */
  function Intersection<T(==)>(family: seq<set<T>>): (r: set<T>)
    ensures r == {}
  {
    if |family| == 0 then {}
    else Intersection(family[..|family| - 1]) * family[|family| - 1]
  }

  /** The intersection the fold evidently means: it starts from the first
      member, and an empty family has no intersection at all. */
  function IntersectionIntended<T(==,!new)>(family: seq<set<T>>): (r: Option<set<T>>)
    ensures r.None? <==> |family| == 0
    ensures r.Some? ==> forall x :: x in r.value <==> forall i | 0 <= i < |family| :: x in family[i]
  {
    if |family| == 0 then None
    else Some(MeetFrom(family[0], family[1..]))
  }

  /** Folds `S &= x` over `rest`, starting from `start`. */
  function MeetFrom<T(==,!new)>(start: set<T>, rest: seq<set<T>>): (r: set<T>)
    ensures forall x :: x in r <==> x in start && forall i | 0 <= i < |rest| :: x in rest[i]
  {
    if |rest| == 0 then start
    else
      var init := rest[..|rest| - 1];
      assert forall i | 0 <= i < |init| :: init[i] == rest[i];
      MeetFrom(start, init) * rest[|rest| - 1]
  }

  /** A family whose members all contain `x` has `x` in its intended
      intersection, yet the fold as written drops it: `[{x}]` is the
      smallest such input. */
  lemma IntersectionLosesCommonElement<T(!new)>(x: T)
    ensures Intersection([{x}]) == {}
    ensures IntersectionIntended([{x}]) == Some({x})
  {
    var r := IntersectionIntended([{x}]);
    assert x in r.value;
  }

  // ---------------------------------------------------------------------
  // powerset
  // ---------------------------------------------------------------------

  function Elements<T(==)>(xs: seq<T>): set<T> {
    set i | 0 <= i < |xs| :: xs[i]
  }

  predicate Distinct<T(==)>(xs: seq<T>) {
    forall i, j | 0 <= i < j < |xs| :: xs[i] != xs[j]
  }

  /** The element sets of `itertools.combinations(xs, k)`: the combinations
      that take `xs[0]` followed by those that skip it. */
  function Combinations<T(==)>(xs: seq<T>, k: nat): set<set<T>>
    decreases |xs|
  {
    if k == 0 then {{}}
    else if |xs| == 0 then {}
    else
      (set c | c in Combinations(xs[1..], k - 1) :: c + {xs[0]})
      + Combinations(xs[1..], k)
  }

  /** The empty tuple together with the combinations of sizes 1 to m. */
  function CombinationsUpTo<T(==)>(xs: seq<T>, m: nat): set<set<T>> {
    if m == 0 then {{}} else CombinationsUpTo(xs, m - 1) + Combinations(xs, m)
  }

  /** `powerset(X)`: the sets of the empty tuple and of every combination of
      1 to `len(X)` elements. */
  function Powerset<T(==)>(xs: seq<T>): set<set<T>> {
    CombinationsUpTo(xs, |xs|)
  }

  /** Reference definition: the subsets of the elements of xs, built one
      element at a time. */
  function Subsets<T(==)>(xs: seq<T>): set<set<T>>
    decreases |xs|
  {
    if |xs| == 0 then {{}}
    else Subsets(xs[1..]) + set s | s in Subsets(xs[1..]) :: s + {xs[0]}
  }

  function Pow2(n: nat): nat {
    if n == 0 then 1 else 2 * Pow2(n - 1)
  }

  lemma {:induction false} ElementsTail<T>(xs: seq<T>)
    requires |xs| > 0
    ensures Elements(xs) == {xs[0]} + Elements(xs[1..])
  {
    var tail := xs[1..];
    forall y | y in Elements(xs) ensures y in {xs[0]} + Elements(tail) {
      var i :| 0 <= i < |xs| && xs[i] == y;
      if i > 0 { assert tail[i - 1] == y; }
    }
    forall y | y in Elements(tail) ensures y in Elements(xs) {
      var i :| 0 <= i < |tail| && tail[i] == y;
      assert xs[i + 1] == y;
    }
    assert xs[0] in Elements(xs);
  }

  lemma {:induction false} CombinationsAreSubsets<T>(xs: seq<T>, k: nat, c: set<T>)
    requires c in Combinations(xs, k)
    ensures c <= Elements(xs)
    decreases |xs|
  {
    if k != 0 && |xs| != 0 {
      ElementsTail(xs);
      if c in Combinations(xs[1..], k) {
        CombinationsAreSubsets(xs[1..], k, c);
      } else {
        var c' :| c' in Combinations(xs[1..], k - 1) && c == c' + {xs[0]};
        CombinationsAreSubsets(xs[1..], k - 1, c');
      }
    }
  }

  lemma {:induction false} SubsetIsCombination<T>(xs: seq<T>, s: set<T>)
    requires s <= Elements(xs)
    ensures s in Combinations(xs, |s|)
    decreases |xs|
  {
    if |xs| == 0 {
      assert Elements(xs) == {};
      assert s == {};
    } else if |s| != 0 {
      {
        ElementsTail(xs);
        var x := xs[0];
        if x in s {
          var s' := s - {x};
          assert s' <= Elements(xs[1..]);
          SubsetIsCombination(xs[1..], s');
          assert s == s' + {x};
        } else {
          SubsetIsCombination(xs[1..], s);
        }
      }
    }
  }

  lemma {:induction false} CombinationsUpToMembers<T>(xs: seq<T>, m: nat, s: set<T>)
    ensures s in CombinationsUpTo(xs, m) <==> s <= Elements(xs) && |s| <= m
  {
    if m == 0 {
    } else {
      CombinationsUpToMembers(xs, m - 1, s);
      if s in Combinations(xs, m) {
        CombinationsAreSubsets(xs, m, s);
        CombinationSize(xs, m, s);
      }
      if s <= Elements(xs) && |s| == m {
        SubsetIsCombination(xs, s);
      }
    }
  }

  lemma {:induction false} CombinationSize<T>(xs: seq<T>, k: nat, c: set<T>)
    requires c in Combinations(xs, k)
    ensures |c| <= k
    decreases |xs|
  {
    if k != 0 && |xs| != 0 {
      if c !in Combinations(xs[1..], k) {
        var c' :| c' in Combinations(xs[1..], k - 1) && c == c' + {xs[0]};
        CombinationSize(xs[1..], k - 1, c');
      } else {
        CombinationSize(xs[1..], k, c);
      }
    }
  }

  lemma {:induction false} SubsetCardinality<T>(s: set<T>, t: set<T>)
    requires s <= t
    ensures |s| <= |t|
    decreases |t|
  {
    if s != {} {
      var y :| y in s;
      SubsetCardinality(s - {y}, t - {y});
    }
  }

  lemma {:induction false} ElementsCardinality<T>(xs: seq<T>)
    ensures |Elements(xs)| <= |xs|
    ensures Distinct(xs) ==> |Elements(xs)| == |xs|
    decreases |xs|
  {
    if |xs| == 0 {
      assert Elements(xs) == {};
    } else {
      ElementsTail(xs);
      ElementsCardinality(xs[1..]);
      if Distinct(xs) {
        assert xs[0] !in Elements(xs[1..]);
      }
    }
  }

  /** Every member of `powerset(X)` is a subset of X, and every subset of X
      is a member; in particular the empty set and X itself are. */
  lemma PowersetMembers<T>(xs: seq<T>)
    ensures forall s :: s in Powerset(xs) <==> s <= Elements(xs)
    ensures {} in Powerset(xs) && Elements(xs) in Powerset(xs)
  {
    forall s ensures s in Powerset(xs) <==> s <= Elements(xs) {
      PowersetMember(xs, s);
    }
  }

  lemma PowersetMember<T>(xs: seq<T>, s: set<T>)
    ensures s in Powerset(xs) <==> s <= Elements(xs)
  {
    CombinationsUpToMembers(xs, |xs|, s);
    if s <= Elements(xs) {
      SubsetCardinality(s, Elements(xs));
      ElementsCardinality(xs);
    }
  }

  lemma {:induction false} SubsetsMembers<T>(xs: seq<T>, s: set<T>)
    ensures s in Subsets(xs) <==> s <= Elements(xs)
    decreases |xs|
  {
    if |xs| == 0 {
      assert Elements(xs) == {};
      assert s <= {} ==> s == {};
    } else {
      var x, tail := xs[0], xs[1..];
      ElementsTail(xs);
      if s in Subsets(xs) {
        if s !in Subsets(tail) {
          var s' :| s' in Subsets(tail) && s == s' + {x};
          SubsetsMembers(tail, s');
        } else {
          SubsetsMembers(tail, s);
        }
      }
      if s <= Elements(xs) {
        if x in s {
          SubsetsMembers(tail, s - {x});
          assert s == (s - {x}) + {x};
        } else {
          SubsetsMembers(tail, s);
        }
      }
    }
  }

  /** Adding an element that no member holds is injective on a family. */
  lemma {:induction false} AddElementCardinality<T>(family: set<set<T>>, x: T)
    requires forall s | s in family :: x !in s
    ensures |set s | s in family :: s + {x}| == |family|
    decreases |family|
  {
    var image := set s | s in family :: s + {x};
    if family == {} {
      assert image == {};
    } else {
      var s0 :| s0 in family;
      var rest := family - {s0};
      var restImage := set s | s in rest :: s + {x};
      AddElementCardinality(rest, x);
      forall s1 | s1 in rest ensures s1 + {x} != s0 + {x} {
        assert s1 == (s1 + {x}) - {x};
        assert s0 == (s0 + {x}) - {x};
      }
      assert s0 + {x} !in restImage;
      forall y | y in image ensures y in restImage + {s0 + {x}} {
        var s :| s in family && y == s + {x};
        if s != s0 {
          assert s in rest;
        }
      }
      assert image == restImage + {s0 + {x}};
      assert |image| == |restImage| + 1;
    }
  }

  lemma {:induction false} SubsetsCardinality<T>(xs: seq<T>)
    requires Distinct(xs)
    ensures |Subsets(xs)| == Pow2(|xs|)
    decreases |xs|
  {
    if |xs| != 0 {
      var x, tail := xs[0], xs[1..];
      assert Distinct(tail) by {
        forall i, j | 0 <= i < j < |tail| ensures tail[i] != tail[j] {
          assert tail[i] == xs[i + 1] && tail[j] == xs[j + 1];
        }
      }
      SubsetsCardinality(tail);
      ElementsTail(xs);
      assert x !in Elements(tail) by {
        forall i | 0 <= i < |tail| ensures tail[i] != x {
          assert tail[i] == xs[i + 1];
        }
      }
      var without := Subsets(tail);
      var added := set s | s in without :: s + {x};
      forall s | s in without ensures x !in s {
        SubsetsMembers(tail, s);
      }
      AddElementCardinality(without, x);
      assert without !! added;
      assert |without + added| == |without| + |added|;
    }
  }

  /** For a duplicate-free X, `powerset(X)` has `2^len(X)` members. */
  lemma PowersetCardinality<T>(xs: seq<T>)
    requires Distinct(xs)
    ensures |Powerset(xs)| == Pow2(|xs|)
  {
    var all, reference := Powerset(xs), Subsets(xs);
    forall s | s in all ensures s in reference {
      PowersetMember(xs, s);
      SubsetsMembers(xs, s);
    }
    forall s | s in reference ensures s in all {
      PowersetMember(xs, s);
      SubsetsMembers(xs, s);
    }
    assert all == reference;
    SubsetsCardinality(xs);
  }

  // ---------------------------------------------------------------------
  // rel2pairs
  // ---------------------------------------------------------------------

  /** Every row of the table is at least as long as the table, so that
      `t[i][j]` is defined for all `i, j < len(t)`. */
  predicate IsSquare<T(==)>(t: seq<seq<T>>) {
    forall i | 0 <= i < |t| :: |t[i]| >= |t|
  }

  /** Number of true cells among the first m cells of a row. */
  function CountRow(row: seq<bool>, m: nat): nat
    requires m <= |row|
  {
    if m == 0 then 0 else CountRow(row, m - 1) + (if row[m - 1] then 1 else 0)
  }

  /** Number of true cells of the n×n table, n = len(rel). */
  function CountTrue(rel: seq<seq<bool>>, rows: nat): nat
    requires IsSquare(rel) && rows <= |rel|
  {
    if rows == 0 then 0 else CountTrue(rel, rows - 1) + CountRow(rel[rows - 1], |rel|)
  }

  /** The true cells (i, j), j < m, of row i. */
  function RowPairs(rel: seq<seq<bool>>, i: nat, m: nat): (r: set<(int, int)>)
    requires IsSquare(rel) && i < |rel| && m <= |rel|
    ensures forall a, b :: (a, b) in r <==> a == i && 0 <= b < m && rel[i][b]
    ensures |r| == CountRow(rel[i], m)
  {
    if m == 0 then {}
    else
      var init := RowPairs(rel, i, m - 1);
      if rel[i][m - 1] then
        assert (i, m - 1) !in init;
        init + {(i, m - 1)}
      else init
  }

  /** The true cells of the first `rows` rows. */
  function PairsOfRows(rel: seq<seq<bool>>, rows: nat): (r: set<(int, int)>)
    requires IsSquare(rel) && rows <= |rel|
    ensures forall a, b :: (a, b) in r <==> 0 <= a < rows && 0 <= b < |rel| && rel[a][b]
    ensures |r| == CountTrue(rel, rows)
  {
    if rows == 0 then {}
    else
      var init := PairsOfRows(rel, rows - 1);
      var row := RowPairs(rel, rows - 1, |rel|);
      assert init !! row by {
        forall p | p in row ensures p !in init {
          assert p.0 == rows - 1;
        }
      }
      init + row
  }

  /** `rel2pairs(rel)`: the index pairs of the true cells of an n×n table,
      n = len(rel), nothing else; one pair per true cell. */
  function Rel2Pairs(rel: seq<seq<bool>>): (r: set<(int, int)>)
    requires IsSquare(rel)
    ensures forall i, j :: (i, j) in r <==> 0 <= i < |rel| && 0 <= j < |rel| && rel[i][j]
    ensures |r| == CountTrue(rel, |rel|)
  {
    PairsOfRows(rel, |rel|)
  }

  // ---------------------------------------------------------------------
  // eqrel2partition
  // ---------------------------------------------------------------------

  /** The class opened for `a`: `a` itself and every second coordinate
      paired with it. */
  function Block<T(==)>(pairs: set<(T, T)>, a: T): set<T> {
    {a} + set p | p in pairs && p.0 == a :: p.1
  }

  /** One block per distinct first coordinate. */
  function Blocks<T(==)>(pairs: set<(T, T)>): set<set<T>> {
    set p | p in pairs :: Block(pairs, p.0)
  }

  function PairSet<T(==)>(co: seq<(T, T)>): set<(T, T)> {
    set i | 0 <= i < |co| :: co[i]
  }

  /** `eqrel2partition(co)`: walks the pairs in iteration order, opening a
      class `{a}` for each new first coordinate `a` and adding the second
      coordinate to it. The result is `Blocks` of the pair set, so it does
      not depend on the order of the pairs. */
  method EqRel2Partition<T(==)>(co: seq<(T, T)>) returns (r: set<set<T>>)
    ensures r == Blocks(PairSet(co))
  {
    var classes: map<T, set<T>> := map[];
    var k := 0;
    while k < |co|
      invariant 0 <= k <= |co|
      invariant classes.Keys == set i | 0 <= i < k :: co[i].0
      invariant forall a | a in classes :: classes[a] == Block(PairSet(co[..k]), a)
    {
      var (a, b) := co[k];
      assert PairSet(co[..k + 1]) == PairSet(co[..k]) + {co[k]} by {
        assert forall i | 0 <= i < k + 1 :: co[..k + 1][i] == co[i];
        assert forall i | 0 <= i < k :: co[..k][i] == co[i];
      }
      if a !in classes {
        classes := classes[a := {a}];
      }
      classes := classes[a := classes[a] + {b}];
      k := k + 1;
    }
    assert co[..k] == co;
    r := set a | a in classes :: classes[a];
    assert r == Blocks(PairSet(co)) by {
      forall blk | blk in Blocks(PairSet(co)) ensures blk in r {
        var p :| p in PairSet(co) && blk == Block(PairSet(co), p.0);
        var i :| 0 <= i < |co| && co[i] == p;
        assert p.0 in classes;
      }
      forall blk | blk in r ensures blk in Blocks(PairSet(co)) {
        var a :| a in classes && blk == classes[a];
        var i :| 0 <= i < |co| && co[i].0 == a;
        assert co[i] in PairSet(co);
      }
    }
  }

  /** Both coordinates of every pair lie in `carrier`. */
  ghost predicate WithinCarrier<T(!new)>(pairs: set<(T, T)>, carrier: set<T>) {
    forall p | p in pairs :: p.0 in carrier && p.1 in carrier
  }

  ghost predicate ReflexiveOn<T(!new)>(pairs: set<(T, T)>, carrier: set<T>) {
    forall a | a in carrier :: (a, a) in pairs
  }

  ghost predicate Symmetric<T(!new)>(pairs: set<(T, T)>) {
    forall a, b | (a, b) in pairs :: (b, a) in pairs
  }

  ghost predicate Transitive<T(!new)>(pairs: set<(T, T)>) {
    forall a, b, c | (a, b) in pairs && (b, c) in pairs :: (a, c) in pairs
  }

  /** `pairs` is an equivalence relation whose field is `carrier`. */
  ghost predicate IsEquivalenceOn<T(!new)>(pairs: set<(T, T)>, carrier: set<T>) {
    WithinCarrier(pairs, carrier) && ReflexiveOn(pairs, carrier) && Symmetric(pairs) && Transitive(pairs)
  }

  /** `x` lies in some block of the family. */
  ghost predicate InSomeBlock<T(!new)>(blocks: set<set<T>>, x: T) {
    exists blk :: blk in blocks && x in blk
  }

  /** The equivalence class of `a`. */
  function ClassOf<T(==)>(pairs: set<(T, T)>, carrier: set<T>, a: T): set<T> {
    set b | b in carrier && (a, b) in pairs
  }

  lemma BlockIsClass<T(!new)>(pairs: set<(T, T)>, carrier: set<T>, a: T)
    requires WithinCarrier(pairs, carrier) && ReflexiveOn(pairs, carrier) && a in carrier
    ensures Block(pairs, a) == ClassOf(pairs, carrier, a)
  {
    assert (a, a) in pairs;
    forall b | b in Block(pairs, a) ensures b in ClassOf(pairs, carrier, a) {
      if b != a {
        var p :| p in pairs && p.0 == a && p.1 == b;
      }
    }
    forall b | b in ClassOf(pairs, carrier, a) ensures b in Block(pairs, a) {
      var p := (a, b);
      assert p in pairs && p.0 == a;
    }
  }

  /** For the full pair set of an equivalence relation, the blocks of
      `eqrel2partition` are exactly its classes: they are pairwise disjoint
      and their union is the carrier. */
  lemma EquivalenceBlocks<T(!new)>(pairs: set<(T, T)>, carrier: set<T>)
    requires IsEquivalenceOn(pairs, carrier)
    ensures Blocks(pairs) == set a | a in carrier :: ClassOf(pairs, carrier, a)
    ensures forall x :: x in carrier <==> InSomeBlock(Blocks(pairs), x)
    ensures forall b1, b2 | b1 in Blocks(pairs) && b2 in Blocks(pairs) :: b1 == b2 || b1 !! b2
  {
    BlocksAreClasses(pairs, carrier);
    forall b1, b2 | b1 in Blocks(pairs) && b2 in Blocks(pairs) ensures b1 == b2 || b1 !! b2 {
      var a1 :| a1 in carrier && b1 == ClassOf(pairs, carrier, a1);
      var a2 :| a2 in carrier && b2 == ClassOf(pairs, carrier, a2);
      ClassesDisjointOrEqual(pairs, carrier, a1, a2);
    }
    BlocksCoverCarrier(pairs, carrier);
  }

  lemma BlocksAreClasses<T(!new)>(pairs: set<(T, T)>, carrier: set<T>)
    requires WithinCarrier(pairs, carrier) && ReflexiveOn(pairs, carrier)
    ensures Blocks(pairs) == set a | a in carrier :: ClassOf(pairs, carrier, a)
  {
    var classes := set a | a in carrier :: ClassOf(pairs, carrier, a);
    forall blk | blk in Blocks(pairs) ensures blk in classes {
      var p :| p in pairs && blk == Block(pairs, p.0);
      BlockIsClass(pairs, carrier, p.0);
    }
    forall blk | blk in classes ensures blk in Blocks(pairs) {
      var a :| a in carrier && blk == ClassOf(pairs, carrier, a);
      BlockIsClass(pairs, carrier, a);
      assert (a, a) in pairs;
    }
  }

  lemma BlocksCoverCarrier<T(!new)>(pairs: set<(T, T)>, carrier: set<T>)
    requires WithinCarrier(pairs, carrier) && ReflexiveOn(pairs, carrier)
    ensures forall x :: x in carrier <==> InSomeBlock(Blocks(pairs), x)
  {
    forall x ensures x in carrier <==> InSomeBlock(Blocks(pairs), x) {
      if x in carrier {
        var p := (x, x);
        assert p in pairs;
        var blk := Block(pairs, p.0);
        assert blk in Blocks(pairs);
        assert x in blk;
      }
      if InSomeBlock(Blocks(pairs), x) {
        var blk :| blk in Blocks(pairs) && x in blk;
        BlockWithinCarrier(pairs, carrier, blk, x);
      }
    }
  }

  lemma BlockWithinCarrier<T(!new)>(pairs: set<(T, T)>, carrier: set<T>, blk: set<T>, x: T)
    requires WithinCarrier(pairs, carrier)
    requires blk in Blocks(pairs) && x in blk
    ensures x in carrier
  {
    var p :| p in pairs && blk == Block(pairs, p.0);
    if x != p.0 {
      var q :| q in pairs && q.0 == p.0 && q.1 == x;
    }
  }

  lemma ClassesDisjointOrEqual<T(!new)>(pairs: set<(T, T)>, carrier: set<T>, a1: T, a2: T)
    requires Symmetric(pairs) && Transitive(pairs)
    ensures ClassOf(pairs, carrier, a1) == ClassOf(pairs, carrier, a2)
         || ClassOf(pairs, carrier, a1) !! ClassOf(pairs, carrier, a2)
  {
    var b1, b2 := ClassOf(pairs, carrier, a1), ClassOf(pairs, carrier, a2);
    if !(b1 !! b2) {
      var c :| c in b1 && c in b2;
      assert (a1, c) in pairs && (a2, c) in pairs && (c, a2) in pairs;
      assert (a1, a2) in pairs && (a2, a1) in pairs;
      forall y | y in b1 ensures y in b2 { assert (a2, y) in pairs; }
      forall y | y in b2 ensures y in b1 { assert (a1, y) in pairs; }
    }
  }
}
