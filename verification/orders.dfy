/** `poset2model`: turning a collection of comparable items into a
    structure whose single relation `<=` is their order.

    The Python code inspects element types at run time to decide whether
    it was given plain values, sets, or sets of sets (partitions); the
    model takes that decision from an explicit tag instead. */
module Orders {

  import opened Results
  import opened Structures
  import SetUtils

  /** The items to order, in the iteration order of the collection: plain
      numbers, sets of numbers, or sets of sets of numbers (a set of sets is
      given as the sequence of its member sets). */
  datatype Family =
    | Chain(values: seq<int>)
    | SubsetFamily(sets: seq<set<int>>)
    | SetOfSetsFamily(members: seq<seq<set<int>>>)

  function Size(f: Family): nat {
    match f
    case Chain(v) => |v|
    case SubsetFamily(s) => |s|
    case SetOfSetsFamily(m) => |m|
  }

  /** The members are taken for partitions of one carrier when every member
      has the same union as the first one. */
  predicate SameUnion(members: seq<seq<set<int>>>)
    requires |members| > 0
  {
    forall i | 1 <= i < |members| :: SetUtils.Union(members[i]) == SetUtils.Union(members[0])
  }

  /** The block lies inside some block of `q`. */
  predicate InsideSomeBlock(block: set<int>, q: seq<set<int>>) {
    exists b | 0 <= b < |q| :: block <= q[b]
  }

  /** Every block of `p` lies inside some block of `q`. */
  predicate Refines(p: seq<set<int>>, q: seq<set<int>>) {
    forall a | 0 <= a < |p| :: InsideSomeBlock(p[a], q)
  }

  /** Item `i` is below item `j`: the native order of integers, inclusion of
      sets, refinement of partitions, or, for sets of sets that are not
      partitions of one carrier, inclusion of the sets of blocks. */
  predicate Below(f: Family, i: nat, j: nat)
    requires i < Size(f) && j < Size(f)
  {
    match f
    case Chain(v) => v[i] <= v[j]
    case SubsetFamily(s) => s[i] <= s[j]
    case SetOfSetsFamily(m) =>
      if SameUnion(m) then Refines(m[i], m[j])
      else SetUtils.Elements(m[i]) <= SetUtils.Elements(m[j])
  }

  /** The table `li` of `poset2model`: row `j`, column `i` says whether item
      `i` is below item `j` (note the transposed indexing). */
  function OrderTable(f: Family): (t: seq<seq<bool>>)
    ensures |t| == Size(f)
    ensures forall j | 0 <= j < |t| :: |t[j]| == Size(f)
  {
    seq(Size(f), j requires 0 <= j < Size(f) =>
      seq(Size(f), i requires 0 <= i < Size(f) => Below(f, i, j)))
  }

  /** `poset2model(A)` as intended: an error for an empty collection,
      otherwise a structure of cardinality `len(A)` with the single relation
      `<=`; numbers are ordered natively (see `Poset2ModelAsWritten`). */
  function Poset2Model(f: Family): (r: Result<Structure>)
    ensures r.Err? <==> Size(f) == 0
    ensures r.Err? ==> r.error == EmptyFamily
    ensures r.Ok? ==> r.value.cardinality == Size(f) && r.value.operations == []
    ensures r.Ok? ==> r.value.relations == [("<=", BinaryRel(OrderTable(f)))]
    ensures r.Ok? ==> Lookup(r.value.relations, "<=") == Some(BinaryRel(OrderTable(f)))
    ensures r.Ok? ==> forall i, j | 0 <= i < Size(f) && 0 <= j < Size(f) ::
                        OrderTable(f)[j][i] == Below(f, i, j)
  {
    if Size(f) == 0 then Err(EmptyFamily)
    else Ok(Structure(Size(f), [], [("<=", BinaryRel(OrderTable(f)))]))
  }

  /** `poset2model(A)` exactly as written: before choosing a branch, line
      119 iterates over the first item, which raises a `TypeError` when the
      items are numbers. */
  function Poset2ModelAsWritten(f: Family): (r: Result<Structure>)
    ensures Size(f) == 0 ==> r == Err(EmptyFamily)
    ensures Size(f) > 0 && f.Chain? ==> r == Err(TypeError)
    ensures !f.Chain? ==> r == Poset2Model(f)
  {
    if Size(f) == 0 then Err(EmptyFamily)
    else if f.Chain? then Err(TypeError)
    else Poset2Model(f)
  }

  /** Any non-empty collection of numbers shows the difference: the code as
      written fails, where the intended structure orders the numbers by
      `<=`. */
  lemma NumbersAreNotIterable(values: seq<int>)
    requires |values| > 0
    ensures Poset2ModelAsWritten(Chain(values)) == Err(TypeError)
    ensures Poset2Model(Chain(values)).Ok?
    ensures forall i, j | 0 <= i < |values| && 0 <= j < |values| ::
              OrderTable(Chain(values))[j][i] <==> values[i] <= values[j]
  {
  }

  lemma RefinesReflexive(p: seq<set<int>>)
    ensures Refines(p, p)
  {
    forall a | 0 <= a < |p| ensures InsideSomeBlock(p[a], p) {
      assert p[a] <= p[a];
    }
  }

  lemma RefinesTransitive(p: seq<set<int>>, q: seq<set<int>>, r: seq<set<int>>)
    requires Refines(p, q) && Refines(q, r)
    ensures Refines(p, r)
  {
    forall a | 0 <= a < |p| ensures InsideSomeBlock(p[a], r) {
      assert InsideSomeBlock(p[a], q);
      var b :| 0 <= b < |q| && p[a] <= q[b];
      assert InsideSomeBlock(q[b], r);
      var c :| 0 <= c < |r| && q[b] <= r[c];
    }
  }

  lemma BelowReflexive(f: Family, i: nat)
    requires i < Size(f)
    ensures Below(f, i, i)
  {
    if f.SetOfSetsFamily? {
      RefinesReflexive(f.members[i]);
    }
  }

  lemma BelowTransitive(f: Family, a: nat, b: nat, c: nat)
    requires a < Size(f) && b < Size(f) && c < Size(f)
    requires Below(f, a, b) && Below(f, b, c)
    ensures Below(f, a, c)
  {
    if f.SetOfSetsFamily? && SameUnion(f.members) {
      RefinesTransitive(f.members[a], f.members[b], f.members[c]);
    }
  }

  /** The `<=` table of `poset2model` is a preorder: its diagonal is all true
      and it is transitive. */
  lemma OrderTableIsPreorder(f: Family)
    ensures forall i | 0 <= i < Size(f) :: OrderTable(f)[i][i]
    ensures forall a, b, c | 0 <= a < Size(f) && 0 <= b < Size(f) && 0 <= c < Size(f) ::
              OrderTable(f)[b][a] && OrderTable(f)[c][b] ==> OrderTable(f)[c][a]
  {
    var t := OrderTable(f);
    forall i | 0 <= i < Size(f) ensures t[i][i] {
      BelowReflexive(f, i);
    }
    forall a, b, c | 0 <= a < Size(f) && 0 <= b < Size(f) && 0 <= c < Size(f) && t[b][a] && t[c][b]
      ensures t[c][a]
    {
      BelowTransitive(f, a, b, c);
    }
  }

  /** A strictly increasing chain of sets `k[0] < k[1] < ...` yields the
      total order of chain positions: item `i` is below item `j` exactly
      when `i <= j`. */
  lemma NestedChainOrder(sets: seq<set<int>>)
    requires forall i, j | 0 <= i < j < |sets| :: sets[i] < sets[j]
    ensures forall i, j | 0 <= i < |sets| && 0 <= j < |sets| ::
              OrderTable(SubsetFamily(sets))[j][i] <==> i <= j
  {
    forall i, j | 0 <= i < |sets| && 0 <= j < |sets|
      ensures OrderTable(SubsetFamily(sets))[j][i] <==> i <= j
    {
      if j < i {
        assert sets[j] < sets[i];
      }
    }
  }
}
