/** The helpers of Prover9.py that build theories and hand them to the
    Prover9/Mace4 backend: `compatiblepreorders`, `precongruences`, `Con`,
    `check` and `p9`.

    The backend and the textual diagram of a structure are not part of this
    model; both are function parameters. A `Prover` answers a `Query` with
    the structures it finds, and a `DiagramText` gives the facts of a
    structure as formulas, as `A.diagram("")` does. */
module Queries {

  import opened Results
  import opened Structures
  import SetUtils

  /** The keyword arguments a helper passes to the backend, beyond the
      positional ones. */
  datatype Keyword =
    | NonIso(nonIso: bool)
    | One(one: bool)
    | Params(params: string)
    | Info(info: bool)
    | Options(options: seq<string>)

  /** One backend call: `prover9(assumptions, goals, mace_seconds,
      prover_seconds, cardinality, **keywords)`. */
  datatype Query = Query(
    assumptions: seq<string>,
    goals: seq<string>,
    maceSeconds: int,
    proverSeconds: int,
    cardinality: Option<int>,
    keywords: seq<Keyword>)

  type Prover = Query -> seq<Structure>

  type DiagramText = Structure -> seq<string>

  // ---------------------------------------------------------------------
  // compatiblepreorders
  // ---------------------------------------------------------------------

  /** The `signum` table: for each operation symbol it knows, the axiom
      saying that the relation `C` is compatible with that operation. */
  const SignumTable: seq<(string, string)> := [
    ("-", "C(x,y)->C(-y,-x)"),
    ("~", "C(x,y)->C(~y,~x)"),
    ("'", "C(x,y)->C(y',x')"),
    ("f", "C(x,y)->C(f(x),f(y))"),
    ("*", "C(x,y)->C(x*z,y*z)&C(z*x,z*y)"),
    ("+", "C(x,y)->C(x+z,y+z)&C(z+x,z+y)"),
    ("\\", "C(x,y)->C(y\\ z,x\\ z)&C(z\\ x,z\\ y)"),
    ("/", "C(x,y)->C(x/z,y/z)&C(z/y,z/x)"),
    ("^", "C(x,y)->C(x^z,y^z)&C(z^x,z^y)"),
    ("v", "C(x,y)->C(x v z,y v z)&C(z v x,z v y)")
  ]

  const Transitivity: string := "C(x,y)&C(y,z)->C(x,z)"
  const OrderInclusion: string := "x<=y->C(x,y)"
  const Reflexivity: string := "C(x,x)"
  const Symmetry: string := "C(x,y)->C(y,x)"

  /** A compatibility axiom: an implication from `C(x,y)` other than the
      symmetry axiom. */
  predicate IsTemplate(t: string) {
    |t| >= 8 && t[..8] == "C(x,y)->" && t != Symmetry
  }

  /** Every axiom of the table is a template. */
  predicate AllTemplates(table: seq<(string, string)>) {
    forall k | 0 <= k < |table| :: IsTemplate(table[k].1)
  }

  lemma SignumTemplates()
    ensures AllTemplates(SignumTable)
  {
  }

  lemma LookupTemplate(table: seq<(string, string)>, symbol: string)
    requires AllTemplates(table)
    ensures Lookup(table, symbol).Some? ==> IsTemplate(Lookup(table, symbol).value)
  {
    if Lookup(table, symbol).Some? {
      var i :| 0 <= i < |table| && table[i] == (symbol, Lookup(table, symbol).value);
    }
  }

  /** The compatibility axiom of an operation symbol, if the table has one;
      it is always a template. */
  function Signum(symbol: string): (r: Option<string>)
    ensures r.Some? ==> IsTemplate(r.value)
  {
    SignumTemplates();
    LookupTemplate(SignumTable, symbol);
    Lookup(SignumTable, symbol)
  }

  /** No template is one of the four fixed axioms of `compatiblepreorders`. */
  lemma TemplateIsNotFixed(t: string)
    requires IsTemplate(t)
    ensures t !in [Transitivity, OrderInclusion, Reflexivity, Symmetry]
  {
    assert t[6] == t[..8][6] == '-';
    assert t[0] == t[..8][0] == 'C';
  }

  /** `compatiblepreorders` accepts an operation when the table knows its
      symbol or when it is a constant. */
  predicate Handled(entry: (string, Operation)) {
    HandledBy(Signum, entry)
  }

  /** `entry` is handled with `known` as the table of templates. */
  predicate HandledBy(known: string -> Option<string>, entry: (string, Operation)) {
    known(entry.0).Some? || entry.1.Constant?
  }

  /** The positions of the operations `known` has a template for, in
      increasing order. */
  function KnownPositions(ops: seq<(string, Operation)>, known: string -> Option<string>): (r: seq<int>)
    ensures forall k | 0 <= k < |r| :: 0 <= r[k] < |ops| && known(ops[r[k]].0).Some?
    ensures forall k, l | 0 <= k < l < |r| :: r[k] < r[l]
    ensures forall i | 0 <= i < |ops| && known(ops[i].0).Some? :: i in r
    ensures |r| <= |ops|
  {
    if |ops| == 0 then []
    else
      var init := ops[..|ops| - 1];
      assert forall i | 0 <= i < |init| :: init[i] == ops[i];
      KnownPositions(init, known) + (if known(ops[|ops| - 1].0).Some? then [|ops| - 1] else [])
  }

  /** The templates of the operations, in the structure's order, with
      `known` as the table of templates; failing on the first operation
      that is neither known nor a constant. */
  function OperationAxioms(ops: seq<(string, Operation)>, known: string -> Option<string>): (r: Result<seq<string>>)
    ensures r.Err? <==> exists i :: 0 <= i < |ops| && !HandledBy(known, ops[i])
    ensures r.Err? ==> r.error == OperationNotHandled
    ensures r.Ok? ==> |r.value| <= |ops|
    ensures r.Ok? ==> forall t :: t in r.value <==> exists i :: 0 <= i < |ops| && known(ops[i].0) == Some(t)
    ensures r.Ok? ==> |r.value| == |KnownPositions(ops, known)|
    ensures r.Ok? ==> forall k | 0 <= k < |r.value| :: known(ops[KnownPositions(ops, known)[k]].0) == Some(r.value[k])
  {
    if |ops| == 0 then Ok([])
    else
      var init := ops[..|ops| - 1];
      assert forall i | 0 <= i < |init| :: init[i] == ops[i];
      var (name, op) := ops[|ops| - 1];
      var rest := OperationAxioms(init, known);
      if rest.Err? then Err(rest.error)
      else
        match known(name)
        case Some(t) =>
          KnownTemplatesExtend(ops, known, rest.value);
          KnownTemplatesMembers(ops, known, rest.value + [t]);
          Ok(rest.value + [t])
        case None =>
          if op.Constant? then
            KnownTemplatesExtend(ops, known, rest.value);
            KnownTemplatesMembers(ops, known, rest.value);
            Ok(rest.value)
          else Err(OperationNotHandled)
  }

  /** Templates listed position by position for the operations but the
      last stay so when the last operation's template, if any, is added. */
  lemma KnownTemplatesExtend(ops: seq<(string, Operation)>, known: string -> Option<string>, templates: seq<string>)
    requires |ops| > 0
    requires |templates| == |KnownPositions(ops[..|ops| - 1], known)|
    requires forall k | 0 <= k < |templates| ::
               known(ops[..|ops| - 1][KnownPositions(ops[..|ops| - 1], known)[k]].0) == Some(templates[k])
    ensures var extended := if known(ops[|ops| - 1].0).Some? then templates + [known(ops[|ops| - 1].0).value]
                            else templates;
            |extended| == |KnownPositions(ops, known)| &&
            forall k | 0 <= k < |extended| :: known(ops[KnownPositions(ops, known)[k]].0) == Some(extended[k])
  {
    var init := ops[..|ops| - 1];
    assert forall i | 0 <= i < |init| :: init[i] == ops[i];
    if known(ops[|ops| - 1].0).Some? {
      assert KnownPositions(ops, known) == KnownPositions(init, known) + [|ops| - 1];
    } else {
      assert KnownPositions(ops, known) == KnownPositions(init, known);
    }
  }

  /** Templates listed position by position are exactly the templates of
      the known operations. */
  lemma KnownTemplatesMembers(ops: seq<(string, Operation)>, known: string -> Option<string>, templates: seq<string>)
    requires |templates| == |KnownPositions(ops, known)|
    requires forall k | 0 <= k < |templates| :: known(ops[KnownPositions(ops, known)[k]].0) == Some(templates[k])
    ensures |templates| <= |ops|
    ensures forall t :: t in templates <==> exists i :: 0 <= i < |ops| && known(ops[i].0) == Some(t)
  {
    var at := KnownPositions(ops, known);
    forall t | t in templates ensures exists i :: 0 <= i < |ops| && known(ops[i].0) == Some(t) {
      var k :| 0 <= k < |templates| && templates[k] == t;
      assert known(ops[at[k]].0) == Some(t);
    }
    forall t, i | 0 <= i < |ops| && known(ops[i].0) == Some(t) ensures t in templates {
      assert i in at;
      var k :| 0 <= k < |at| && at[k] == i;
      assert templates[k] == t;
    }
  }

  /** The axioms `compat` starts with: transitivity; then order inclusion
      for preorders containing `<=`, or reflexivity; then symmetry when
      asked for. */
  function Preamble(precon: bool, sym: bool): (r: seq<string>)
    ensures |r| == (if sym then 3 else 2)
    ensures r[0] == Transitivity && r[1] == (if precon then OrderInclusion else Reflexivity)
    ensures sym ==> r[2] == Symmetry
    ensures forall t | t in r :: t in [Transitivity, OrderInclusion, Reflexivity, Symmetry]
    ensures (Symmetry in r <==> sym) && (OrderInclusion in r <==> precon)
  {
    [Transitivity, if precon then OrderInclusion else Reflexivity] + (if sym then [Symmetry] else [])
  }

  /** Templates after the preamble leave its characteristic axioms where
      they are: symmetry and order inclusion occur only when the preamble
      has them. */
  lemma PreambleThenTemplates(precon: bool, sym: bool, templates: seq<string>)
    requires forall t | t in templates :: IsTemplate(t)
    ensures Symmetry in Preamble(precon, sym) + templates <==> sym
    ensures OrderInclusion in Preamble(precon, sym) + templates <==> precon
  {
    var preamble := Preamble(precon, sym);
    forall t | t in templates ensures t !in [Transitivity, OrderInclusion, Reflexivity, Symmetry] {
      TemplateIsNotFixed(t);
    }
    assert forall t | t in preamble + templates :: t in preamble || t in templates;
  }

  /** The templates `OperationAxioms` collects from the `signum` table are
      all templates. */
  lemma SignumAxiomsAreTemplates(ops: seq<(string, Operation)>)
    requires OperationAxioms(ops, Signum).Ok?
    ensures forall t | t in OperationAxioms(ops, Signum).value :: IsTemplate(t)
  {
    forall t | t in OperationAxioms(ops, Signum).value ensures IsTemplate(t) {
      var i :| 0 <= i < |ops| && Signum(ops[i].0) == Some(t);
    }
  }

  /** The axiom list `compat`: the preamble, then the templates of the
      structure's operations in their order. */
  function CompatAxioms(ops: seq<(string, Operation)>, precon: bool, sym: bool): (r: Result<seq<string>>)
    ensures r.Err? <==> exists i :: 0 <= i < |ops| && !Handled(ops[i])
    ensures r.Err? ==> r.error == OperationNotHandled
    ensures r.Ok? ==> |r.value| >= 2 && r.value[0] == Transitivity
    ensures r.Ok? ==> r.value[1] == (if precon then OrderInclusion else Reflexivity)
    ensures r.Ok? ==> (Symmetry in r.value <==> sym)
    ensures r.Ok? ==> (OrderInclusion in r.value <==> precon)
    ensures r.Ok? ==> (OperationAxioms(ops, Signum).Ok? &&
                       r.value == [Transitivity, if precon then OrderInclusion else Reflexivity]
                                  + (if sym then [Symmetry] else []) + OperationAxioms(ops, Signum).value)
    ensures r.Ok? ==> forall i | 0 <= i < |ops| && Signum(ops[i].0).Some? :: Signum(ops[i].0).value in r.value
  {
    var templates :- OperationAxioms(ops, Signum);
    SignumAxiomsAreTemplates(ops);
    PreambleThenTemplates(precon, sym, templates);
    Ok(Preamble(precon, sym) + templates)
  }

  /** The backend call of `compatiblepreorders`: the structure's diagram
      followed by the axioms, no goals, a large model-search budget, the
      structure's cardinality, and isomorphic copies kept. */
  function CompatQuery(a: Structure, precon: bool, sym: bool, diagram: DiagramText): (r: Result<Query>)
    ensures r.Err? <==> CompatAxioms(a.operations, precon, sym).Err?
    ensures r.Ok? ==> r.value.assumptions == diagram(a) + CompatAxioms(a.operations, precon, sym).value
    ensures r.Ok? ==> r.value.goals == [] && r.value.cardinality == Some(a.cardinality)
    ensures r.Ok? ==> r.value.keywords == [NonIso(false)]
    ensures r.Ok? ==> r.value.maceSeconds == 100000 && r.value.proverSeconds == 0
  {
    var axioms :- CompatAxioms(a.operations, precon, sym);
    Ok(Query(diagram(a) + axioms, [], 100000, 0, Some(a.cardinality), [NonIso(false)]))
  }

  /** `rel2pairs` of a relation table, failing where Python would: a row
      shorter than the table, or a non-empty unary relation whose entries
      cannot be indexed. */
  function PairsOf(rel: Relation): (r: Result<set<(int, int)>>)
    ensures rel.BinaryRel? ==> (r.Ok? <==> SetUtils.IsSquare(rel.table))
    ensures rel.BinaryRel? && r.Ok? ==>
              forall i, j :: (i, j) in r.value <==> 0 <= i < |rel.table| && 0 <= j < |rel.table| && rel.table[i][j]
    ensures rel.UnaryRel? ==> r == (if |rel.holds| == 0 then Ok({}) else Err(TypeError))
  {
    match rel
    case BinaryRel(t) => if SetUtils.IsSquare(t) then Ok(SetUtils.Rel2Pairs(t)) else Err(IndexError)
    case UnaryRel(h) => if |h| == 0 then Ok({}) else Err(TypeError)
  }

  /** The pairs of the relation `C` of a structure the backend found. */
  function PreorderOf(m: Structure): (r: Result<set<(int, int)>>)
    ensures Lookup(m.relations, "C").None? ==> r == Err(KeyError("C"))
    ensures Lookup(m.relations, "C").Some? ==> r == PairsOf(Lookup(m.relations, "C").value)
  {
    var found: Option<Relation> := Lookup(m.relations, "C");
    match found
    case None => Err(KeyError("C"))
    case Some(rel) => PairsOf(rel)
  }

  /** `f` first fails at index `i` of `xs`. */
  predicate FirstFailureAt<A, B>(f: A -> Result<B>, xs: seq<A>, i: nat)
    requires i < |xs|
  {
    f(xs[i]).Err? && forall j | 0 <= j < i :: f(xs[j]).Ok?
  }

  /** `frozenset([f(x) for x in xs])`, where `f` may raise: the set of the
      results, or the error of the first element on which `f` fails. */
  function CollectAll<A, B(==,!new)>(f: A -> Result<B>, xs: seq<A>): (r: Result<set<B>>)
    ensures r.Ok? <==> forall i | 0 <= i < |xs| :: f(xs[i]).Ok?
    ensures r.Ok? ==> forall y :: y in r.value <==> exists i :: 0 <= i < |xs| && f(xs[i]) == Ok(y)
    ensures r.Err? ==> exists i :: 0 <= i < |xs| && FirstFailureAt(f, xs, i) && f(xs[i]) == Err(r.error)
  {
    if |xs| == 0 then Ok({})
    else
      var tail := xs[1..];
      assert forall i | 0 <= i < |tail| :: tail[i] == xs[i + 1];
      var first := f(xs[0]);
      if first.Err? then
        assert FirstFailureAt(f, xs, 0);
        Err(first.error)
      else
        var rest := CollectAll(f, tail);
        if rest.Err? then
          var i :| 0 <= i < |tail| && FirstFailureAt(f, tail, i) && f(tail[i]) == Err(rest.error);
          assert FirstFailureAt(f, xs, i + 1);
          Err(rest.error)
        else
          CollectCons(f, xs, rest.value);
          Ok(rest.value + {first.value})
  }

  lemma CollectCons<A, B>(f: A -> Result<B>, xs: seq<A>, rest: set<B>)
    requires |xs| > 0 && f(xs[0]).Ok?
    requires forall y :: y in rest <==> exists i :: 0 <= i < |xs| - 1 && f(xs[1..][i]) == Ok(y)
    ensures forall y :: y in rest + {f(xs[0]).value} <==> exists i :: 0 <= i < |xs| && f(xs[i]) == Ok(y)
  {
    forall y | exists i :: 0 <= i < |xs| && f(xs[i]) == Ok(y)
      ensures y in rest + {f(xs[0]).value}
    {
      var i :| 0 <= i < |xs| && f(xs[i]) == Ok(y);
      if i > 0 {
        assert f(xs[1..][i - 1]) == Ok(y);
      }
    }
    forall y | y in rest ensures exists i :: 0 <= i < |xs| && f(xs[i]) == Ok(y) {
      var i :| 0 <= i < |xs| - 1 && f(xs[1..][i]) == Ok(y);
      assert f(xs[i + 1]) == Ok(y);
    }
  }

  /** The set of `C` relations of the models, failing at the first model
      whose `C` is missing or malformed. */
  function Preorders(models: seq<Structure>): Result<set<set<(int, int)>>> {
    CollectAll(PreorderOf, models)
  }

  /** `compatiblepreorders(A, precon, sym)`: the preorders (or, with `sym`,
      the equivalences) on the domain of `A` compatible with its
      operations, as the backend enumerates them. */
  function CompatiblePreorders(a: Structure, precon: bool, sym: bool, prover: Prover, diagram: DiagramText)
    : (r: Result<set<set<(int, int)>>>)
    ensures (exists i :: 0 <= i < |a.operations| && !Handled(a.operations[i])) ==> r == Err(OperationNotHandled)
    ensures CompatQuery(a, precon, sym, diagram).Ok? ==>
              r == Preorders(prover(CompatQuery(a, precon, sym, diagram).value))
  {
    var q :- CompatQuery(a, precon, sym, diagram);
    Preorders(prover(q))
  }

  /** `precongruences(A)` for one structure: the compatible preorders
      containing `<=`, as the backend enumerates them. */
  function Precongruences(a: Structure, prover: Prover, diagram: DiagramText): (r: Result<set<set<(int, int)>>>)
    ensures (exists i :: 0 <= i < |a.operations| && !Handled(a.operations[i])) ==> r == Err(OperationNotHandled)
    ensures CompatAxioms(a.operations, true, false).Ok? ==>
              OperationAxioms(a.operations, Signum).Ok? &&
              r == Preorders(prover(Query(diagram(a) + [Transitivity, OrderInclusion] + OperationAxioms(a.operations, Signum).value,
                                          [], 100000, 0, Some(a.cardinality), [NonIso(false)])))
  {
    CompatQueryShape(a, true, false, diagram);
    assert Preamble(true, false) == [Transitivity, OrderInclusion];
    CompatiblePreorders(a, true, false, prover, diagram)
  }

  /** `p` is a partition of `carrier`: its blocks cover the carrier and
      any two are equal or disjoint. */
  ghost predicate IsPartition(p: set<set<int>>, carrier: set<int>) {
    && (forall x :: x in carrier <==> SetUtils.InSomeBlock(p, x))
    && (forall b1, b2 | b1 in p && b2 in p :: b1 == b2 || b1 !! b2)
  }

  /** The blocks of equivalences on the domain `0..n-1` partition it. */
  lemma BlocksPartitionDomain(eqs: set<set<(int, int)>>, n: nat)
    ensures (forall e | e in eqs :: SetUtils.IsEquivalenceOn(e, Domain(n))) ==>
              forall e | e in eqs :: IsPartition(SetUtils.Blocks(e), Domain(n))
  {
    forall e | e in eqs && SetUtils.IsEquivalenceOn(e, Domain(n)) ensures IsPartition(SetUtils.Blocks(e), Domain(n)) {
      SetUtils.EquivalenceBlocks(e, Domain(n));
    }
  }

  /** The call `compatiblepreorders` makes, spelled out: the diagram, the
      preamble and the operation templates, at the structure's size. */
  lemma CompatQueryShape(a: Structure, precon: bool, sym: bool, diagram: DiagramText)
    ensures CompatAxioms(a.operations, precon, sym).Ok? ==>
              OperationAxioms(a.operations, Signum).Ok? &&
              CompatQuery(a, precon, sym, diagram) ==
                Ok(Query(diagram(a) + Preamble(precon, sym) + OperationAxioms(a.operations, Signum).value,
                         [], 100000, 0, Some(a.cardinality), [NonIso(false)]))
  {
    if CompatAxioms(a.operations, precon, sym).Ok? {
      AcceptedQueryShape(a, precon, sym, diagram);
    }
  }

  /** `CompatQueryShape` for a structure whose operations are all handled. */
  lemma AcceptedQueryShape(a: Structure, precon: bool, sym: bool, diagram: DiagramText)
    requires CompatAxioms(a.operations, precon, sym).Ok?
    ensures OperationAxioms(a.operations, Signum).Ok?
    ensures CompatQuery(a, precon, sym, diagram) ==
              Ok(Query(diagram(a) + Preamble(precon, sym) + OperationAxioms(a.operations, Signum).value,
                       [], 100000, 0, Some(a.cardinality), [NonIso(false)]))
  {
    CompatAxiomsShape(a.operations, precon, sym);
    var axioms := CompatAxioms(a.operations, precon, sym).value;
    var templates := OperationAxioms(a.operations, Signum).value;
    assert CompatQuery(a, precon, sym, diagram) ==
             Ok(Query(diagram(a) + axioms, [], 100000, 0, Some(a.cardinality), [NonIso(false)]));
    assert diagram(a) + axioms == diagram(a) + Preamble(precon, sym) + templates;
  }

  /** The axioms `compat` of a structure whose operations are all handled:
      the preamble, then the operation templates. */
  lemma CompatAxiomsShape(ops: seq<(string, Operation)>, precon: bool, sym: bool)
    requires CompatAxioms(ops, precon, sym).Ok?
    ensures OperationAxioms(ops, Signum).Ok?
    ensures CompatAxioms(ops, precon, sym).value == Preamble(precon, sym) + OperationAxioms(ops, Signum).value
  {
  }

  /** `Con(A)` for one structure: the blocks of every compatible
      equivalence. `Blocks` is what `eqrel2partition` returns for any
      enumeration of the pairs (see `SetUtils.EqRel2Partition`). When the
      backend returns equivalence relations on the domain, every member is
      a partition of the domain. */
  function Con(a: Structure, prover: Prover, diagram: DiagramText): (r: Result<set<set<set<int>>>>)
    ensures (exists i :: 0 <= i < |a.operations| && !Handled(a.operations[i])) ==> r == Err(OperationNotHandled)
    ensures CompatAxioms(a.operations, false, true).Ok? ==>
              OperationAxioms(a.operations, Signum).Ok? &&
              var eqs := Preorders(prover(Query(diagram(a) + [Transitivity, Reflexivity, Symmetry]
                                                  + OperationAxioms(a.operations, Signum).value,
                                                [], 100000, 0, Some(a.cardinality), [NonIso(false)])));
              (r.Ok? <==> eqs.Ok?) &&
              (r.Ok? ==> forall p :: p in r.value <==> exists e :: e in eqs.value && p == SetUtils.Blocks(e))
    ensures r.Ok? ==> CompatiblePreorders(a, false, true, prover, diagram).Ok?
    ensures r.Ok? && (forall e | e in CompatiblePreorders(a, false, true, prover, diagram).value ::
                        SetUtils.IsEquivalenceOn(e, Domain(a.cardinality))) ==>
              forall p | p in r.value :: IsPartition(p, Domain(a.cardinality))
  {
    CompatQueryShape(a, false, true, diagram);
    assert Preamble(false, true) == [Transitivity, Reflexivity, Symmetry];
    ConOf(a, prover, diagram)
  }

  /** The blocks of the equivalences `compatiblepreorders(A, False, True)`
      returns. */
  function ConOf(a: Structure, prover: Prover, diagram: DiagramText): (r: Result<set<set<set<int>>>>)
    ensures r.Ok? <==> CompatiblePreorders(a, false, true, prover, diagram).Ok?
    ensures r.Err? ==> r.error == CompatiblePreorders(a, false, true, prover, diagram).error
    ensures r.Ok? ==> forall p :: p in r.value <==>
              exists e :: e in CompatiblePreorders(a, false, true, prover, diagram).value && p == SetUtils.Blocks(e)
    ensures r.Ok? && (forall e | e in CompatiblePreorders(a, false, true, prover, diagram).value ::
                        SetUtils.IsEquivalenceOn(e, Domain(a.cardinality))) ==>
              forall p | p in r.value :: IsPartition(p, Domain(a.cardinality))
  {
    var eqs :- CompatiblePreorders(a, false, true, prover, diagram);
    BlocksPartitionDomain(eqs, a.cardinality);
    Ok(set e | e in eqs :: SetUtils.Blocks(e))
  }

  /** The precongruence query asks for relations containing `<=` without
      asking for symmetry; the congruence query asks for reflexive,
      symmetric relations without reference to `<=`. */
  lemma PrecongruenceAndConQueries(a: Structure, diagram: DiagramText)
    ensures CompatAxioms(a.operations, true, false).Ok? ==>
              OrderInclusion in CompatAxioms(a.operations, true, false).value &&
              Symmetry !in CompatAxioms(a.operations, true, false).value
    ensures CompatAxioms(a.operations, false, true).Ok? ==>
              Reflexivity in CompatAxioms(a.operations, false, true).value &&
              Symmetry in CompatAxioms(a.operations, false, true).value &&
              OrderInclusion !in CompatAxioms(a.operations, false, true).value
  {
    var c := CompatAxioms(a.operations, false, true);
    if c.Ok? {
      assert c.value[1] == Reflexivity;
    }
  }

  /** The domain `0..n-1` of a structure of cardinality `n`. */
  function Domain(n: nat): (r: set<int>)
    ensures forall x :: x in r <==> 0 <= x < n
  {
    if n == 0 then {} else Domain(n - 1) + {n - 1}
  }

  // ---------------------------------------------------------------------
  // check
  // ---------------------------------------------------------------------

  /** `sub in s` on strings. */
  predicate HasSubstring(s: string, sub: string)
    decreases |s|
  {
    |sub| <= |s| && (s[..|sub|] == sub || (|s| > 0 && HasSubstring(s[1..], sub)))
  }

  const MeetBridge: string := "x<=y <-> x^y=x"
  const JoinBridge: string := "x<=y <-> x v y=y"
  const ProductBridge: string := "x<=y <-> x*y=x"
  const SumBridge: string := "x<=y <-> x+y=y"

  /** The axiom `check` adds to connect `<=` with the operation the formula
      mentions. The tests run in the order `+`, `*`, `v`, `^`, each
      replacing what the earlier ones chose. */
  function BridgeAxiom(formula: string): (r: seq<string>)
    ensures !HasSubstring(formula, "<=") ==> r == []
    ensures HasSubstring(formula, "<=") && HasSubstring(formula, "^") ==> r == [MeetBridge]
    ensures HasSubstring(formula, "<=") && !HasSubstring(formula, "^") && HasSubstring(formula, "v")
            ==> r == [JoinBridge]
    ensures (HasSubstring(formula, "<=") && !HasSubstring(formula, "^") && !HasSubstring(formula, "v")
             && HasSubstring(formula, "*")) ==> r == [ProductBridge]
    ensures (HasSubstring(formula, "<=") && !HasSubstring(formula, "^") && !HasSubstring(formula, "v")
             && !HasSubstring(formula, "*") && HasSubstring(formula, "+")) ==> r == [SumBridge]
    ensures (HasSubstring(formula, "<=") && !HasSubstring(formula, "^") && !HasSubstring(formula, "v")
             && !HasSubstring(formula, "*") && !HasSubstring(formula, "+")) ==> r == []
  {
    if !HasSubstring(formula, "<=") then []
    else
      var afterSum := if HasSubstring(formula, "+") then [SumBridge] else [];
      var afterProduct := if HasSubstring(formula, "*") then [ProductBridge] else afterSum;
      var afterJoin := if HasSubstring(formula, "v") then [JoinBridge] else afterProduct;
      if HasSubstring(formula, "^") then [MeetBridge] else afterJoin
  }

  /** The backend call `check` makes for one formula: the structure's
      diagram and the bridging axiom, the formula as the goal, at the
      structure's cardinality, asking for one counterexample. */
  function CheckQuery(m: Structure, formula: string, diagram: DiagramText): (q: Query)
    ensures |q.assumptions| == |diagram(m)| + |BridgeAxiom(formula)|
    ensures q.assumptions[..|diagram(m)|] == diagram(m)
    ensures q.assumptions[|diagram(m)|..] == BridgeAxiom(formula)
    ensures q.goals == [formula] && q.cardinality == Some(m.cardinality) && q.keywords == [One(true)]
    ensures q.maceSeconds == 1000 && q.proverSeconds == 0
  {
    var q := Query(diagram(m) + BridgeAxiom(formula), [formula], 1000, 0, Some(m.cardinality), [One(true)]);
    assert q.assumptions[..|diagram(m)|] == diagram(m);
    q
  }

  /** A single formula or a list of them. */
  datatype Formulas = Single(formula: string) | Several(formulas: seq<string>)

  function FormulaList(f: Formulas): seq<string> {
    match f
    case Single(s) => [s]
    case Several(l) => l
  }

  /** What `check` returns: `True`, `False`, or with `info` the
      counterexamples followed by the note naming the failing formula. */
  datatype Verdict = Holds | Fails | FailsWith(counterexamples: seq<Structure>, note: string)

  /** The formula at `k` is the first whose query yields counterexamples. */
  predicate FirstRefutedAt(m: Structure, formulas: seq<string>, k: nat, prover: Prover, diagram: DiagramText)
    requires k < |formulas|
  {
    prover(CheckQuery(m, formulas[k], diagram)) != [] &&
    forall j | 0 <= j < k :: prover(CheckQuery(m, formulas[j], diagram)) == []
  }

  /** The loop of `check`, stopping at the first refuted formula. */
  function CheckAll(m: Structure, formulas: seq<string>, info: bool, prover: Prover, diagram: DiagramText)
    : (r: Verdict)
    ensures r == Holds <==> forall k | 0 <= k < |formulas| :: prover(CheckQuery(m, formulas[k], diagram)) == []
    ensures r != Holds ==>
              exists k :: 0 <= k < |formulas| && FirstRefutedAt(m, formulas, k, prover, diagram) &&
                r == (if info then FailsWith(prover(CheckQuery(m, formulas[k], diagram)), formulas[k] + " fails")
                      else Fails)
  {
    if |formulas| == 0 then Holds
    else
      var found := prover(CheckQuery(m, formulas[0], diagram));
      if found != [] then
        assert FirstRefutedAt(m, formulas, 0, prover, diagram);
        if info then FailsWith(found, formulas[0] + " fails") else Fails
      else
        var tail := formulas[1..];
        assert forall k | 0 <= k < |tail| :: tail[k] == formulas[k + 1];
        var r := CheckAll(m, tail, info, prover, diagram);
        if r != Holds then
          var k :| 0 <= k < |tail| && FirstRefutedAt(m, tail, k, prover, diagram) &&
                   r == (if info then FailsWith(prover(CheckQuery(m, tail[k], diagram)), tail[k] + " fails")
                         else Fails);
          assert FirstRefutedAt(m, formulas, k + 1, prover, diagram);
          r
        else
          r
  }

  /** `check(structure, formulas, info)`: `True` exactly when no formula
      has a counterexample; otherwise the verdict on the first refuted
      formula. A single formula is checked as the one-element list. */
  function Check(m: Structure, formulas: Formulas, info: bool, prover: Prover, diagram: DiagramText): (r: Verdict)
    ensures r == Holds <==> forall k | 0 <= k < |FormulaList(formulas)| ::
              prover(CheckQuery(m, FormulaList(formulas)[k], diagram)) == []
    ensures r != Holds ==>
              exists k :: 0 <= k < |FormulaList(formulas)| && FirstRefutedAt(m, FormulaList(formulas), k, prover, diagram) &&
                r == (if info then FailsWith(prover(CheckQuery(m, FormulaList(formulas)[k], diagram)),
                                             FormulaList(formulas)[k] + " fails")
                      else Fails)
    ensures formulas.Single? ==>
              r == (if prover(CheckQuery(m, formulas.formula, diagram)) == [] then Holds
                    else if info then FailsWith(prover(CheckQuery(m, formulas.formula, diagram)), formulas.formula + " fails")
                    else Fails)
  {
    var list := FormulaList(formulas);
    var r := CheckAll(m, list, info, prover, diagram);
    assert formulas.Single? && r != Holds ==> FirstRefutedAt(m, list, 0, prover, diagram);
    r
  }

  // ---------------------------------------------------------------------
  // p9
  // ---------------------------------------------------------------------

  /** The `cardinality` argument of `p9`: absent, one size, or a list
      whose first entry bounds a sweep. */
  datatype CardinalityArg = Unspecified | Exactly(size: int) | Sweep(bounds: seq<int>)

  /** An entry of the sweep's result: index 0 holds `[]`, index 1 holds
      `[1]`, and each later index the backend's answer at that size. */
  datatype Slot<R> = NoAnswer | TrivialSize | Answer(answer: R)

  datatype P9Outcome<R> = Direct(answer: R) | Spectrum(slots: seq<Slot<R>>)

  /** The backend call `p9` makes at one cardinality. */
  function P9Query(assumptions: seq<string>, goals: seq<string>, maceSeconds: int, proverSeconds: int,
                   cardinality: Option<int>, options: seq<string>, params: string, info: bool): Query
  {
    Query(assumptions, goals, maceSeconds, proverSeconds, cardinality, [Params(params), Info(info), Options(options)])
  }

  /** `p9(...)`: a single backend call when the cardinality is absent or a
      number; otherwise a sweep over sizes `2..N`, `N` the first entry of
      the list, one backend call per size. The sweep ends by printing the
      fine spectrum, the `len` of every answer after slot 0; `length`
      gives that `len`, `None` for an answer that has none, and then the
      call raises `TypeError`. */
  method P9<R>(assumptions: seq<string>, goals: seq<string>, maceSeconds: int, proverSeconds: int,
               cardinality: CardinalityArg, options: seq<string>, params: string, info: bool,
               prover: Query -> R, length: R -> Option<nat>)
    returns (r: Result<P9Outcome<R>>)
    ensures cardinality.Unspecified? ==>
              r == Ok(Direct(prover(P9Query(assumptions, goals, maceSeconds, proverSeconds, None, options, params, info))))
    ensures cardinality.Exactly? ==>
              r == Ok(Direct(prover(P9Query(assumptions, goals, maceSeconds, proverSeconds,
                                            Some(cardinality.size), options, params, info))))
    ensures cardinality.Sweep? && |cardinality.bounds| == 0 ==> r == Err(IndexError)
    ensures cardinality.Sweep? && |cardinality.bounds| > 0 ==>
              (r.Ok? <==> forall i | 2 <= i <= cardinality.bounds[0] ::
                            length(prover(P9Query(assumptions, goals, maceSeconds, proverSeconds,
                                                  Some(i), options, params, info))).Some?)
    ensures cardinality.Sweep? && |cardinality.bounds| > 0 && r.Err? ==> r.error == TypeError
    ensures cardinality.Sweep? && |cardinality.bounds| > 0 && r.Ok? ==>
              r.value.Spectrum? &&
              |r.value.slots| == (if cardinality.bounds[0] >= 2 then cardinality.bounds[0] + 1 else 2) &&
              r.value.slots[0] == NoAnswer && r.value.slots[1] == TrivialSize &&
              forall i | 2 <= i < |r.value.slots| ::
                r.value.slots[i] == Answer(prover(P9Query(assumptions, goals, maceSeconds, proverSeconds,
                                                          Some(i), options, params, info)))
  {
    match cardinality
    case Unspecified =>
      r := Ok(Direct(prover(P9Query(assumptions, goals, maceSeconds, proverSeconds, None, options, params, info))));
    case Exactly(n) =>
      r := Ok(Direct(prover(P9Query(assumptions, goals, maceSeconds, proverSeconds, Some(n), options, params, info))));
    case Sweep(bounds) =>
      if |bounds| == 0 {
        r := Err(IndexError);
      } else {
        var n := bounds[0];
        var size := if n >= 2 then n + 1 else 2;
        var slots: seq<Slot<R>> := [NoAnswer, TrivialSize] + seq(size - 2, _ => NoAnswer);
        var measured := true;
        var i := 2;
        while i < size
          invariant 2 <= i <= size
          invariant |slots| == size
          invariant slots[0] == NoAnswer && slots[1] == TrivialSize
          invariant forall k | 2 <= k < i ::
                      slots[k] == Answer(prover(P9Query(assumptions, goals, maceSeconds, proverSeconds,
                                                        Some(k), options, params, info)))
          invariant measured <==> forall k | 2 <= k < i ::
                      length(prover(P9Query(assumptions, goals, maceSeconds, proverSeconds,
                                            Some(k), options, params, info))).Some?
        {
          var answer := prover(P9Query(assumptions, goals, maceSeconds, proverSeconds, Some(i), options, params, info));
          slots := slots[i := Answer(answer)];
          measured := measured && length(answer).Some?;
          i := i + 1;
        }
        if measured {
          r := Ok(Spectrum(slots));
        } else {
          r := Err(TypeError);
        }
      }
  }
}
