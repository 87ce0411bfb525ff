/** Hasse-diagram construction of Prover9.py: the raw edge set of
    `hasse_diagram`, the choice between the reduced and the raw edge set,
    node colours, symbol parsing in `m4diag` and the default symbols of
    `show`.

    Rendering (graph layout, SVG text, notebook display) is not modelled:
    a diagram is the list of node colours and the chosen edge set. The
    transitive reduction of the graph library is a parameter that either
    returns a reduced edge set or fails. */
module Diagrams {

  import opened Results
  import opened Structures
  import SetUtils
  import Orders

  // ---------------------------------------------------------------------
  // hasse_diagram
  // ---------------------------------------------------------------------

  /** The table a diagram is drawn from: a binary relation (`rel=True`) or
      a binary operation (`rel=False`). */
  datatype Table =
    | RelationTable(holds: seq<seq<bool>>)
    | OperationTable(values: seq<seq<int>>)

  function Size(t: Table): nat {
    match t
    case RelationTable(h) => |h|
    case OperationTable(v) => |v|
  }

  /** `op[x][y]` is defined for all `x, y < len(op)`. */
  predicate WellShaped(t: Table) {
    match t
    case RelationTable(h) => SetUtils.IsSquare(h)
    case OperationTable(v) => SetUtils.IsSquare(v)
  }

  /** The edge list handed to the graph: in relation mode the pairs where
      the relation holds (transposed when dual), in operation mode the
      pairs where `op[x][y]` is `x` (`y` when dual); never a loop. */
  function RawEdges(t: Table, dual: bool): (r: set<(int, int)>)
    requires WellShaped(t)
    ensures forall e | e in r :: e.0 != e.1 && 0 <= e.0 < Size(t) && 0 <= e.1 < Size(t)
    ensures t.RelationTable? ==>
              forall x, y :: (x, y) in r <==>
                0 <= x < Size(t) && 0 <= y < Size(t) && x != y && (if dual then t.holds[y][x] else t.holds[x][y])
    ensures t.OperationTable? ==>
              forall x, y :: (x, y) in r <==>
                0 <= x < Size(t) && 0 <= y < Size(t) && x != y && t.values[x][y] == (if dual then y else x)
  {
    var n := Size(t);
    match t
    case RelationTable(h) =>
      set x, y | 0 <= x < n && 0 <= y < n && (if dual then h[y][x] else h[x][y]) && x != y :: (x, y)
    case OperationTable(v) =>
      set x, y | 0 <= x < n && 0 <= y < n && v[x][y] == (if dual then y else x) && x != y :: (x, y)
  }

  /** In relation mode the dual diagram has exactly the reversed edges. */
  lemma DualRelationEdgesReversed(h: seq<seq<bool>>)
    requires SetUtils.IsSquare(h)
    ensures forall x, y :: (x, y) in RawEdges(RelationTable(h), true) <==> (y, x) in RawEdges(RelationTable(h), false)
  {
    forall x, y ensures (x, y) in RawEdges(RelationTable(h), true) <==> (y, x) in RawEdges(RelationTable(h), false) {
      if (x, y) in RawEdges(RelationTable(h), true) {
        assert (y, x) in RawEdges(RelationTable(h), false);
      }
      if (y, x) in RawEdges(RelationTable(h), false) {
        assert (x, y) in RawEdges(RelationTable(h), true);
      }
    }
  }

  predicate Commutative(v: seq<seq<int>>)
    requires SetUtils.IsSquare(v)
  {
    forall x, y | 0 <= x < |v| && 0 <= y < |v| :: v[x][y] == v[y][x]
  }

  /** For a commutative operation such as a lattice meet or join, the dual
      diagram has exactly the reversed edges too: `x*y == x` read from
      either side. */
  lemma DualOperationEdgesReversed(v: seq<seq<int>>)
    requires SetUtils.IsSquare(v) && Commutative(v)
    ensures forall x, y :: (x, y) in RawEdges(OperationTable(v), true) <==> (y, x) in RawEdges(OperationTable(v), false)
  {
    forall x, y ensures (x, y) in RawEdges(OperationTable(v), true) <==> (y, x) in RawEdges(OperationTable(v), false) {
      if (x, y) in RawEdges(OperationTable(v), true) {
        assert v[y][x] == v[x][y];
        assert (y, x) in RawEdges(OperationTable(v), false);
      }
      if (y, x) in RawEdges(OperationTable(v), false) {
        assert v[x][y] == v[y][x];
        assert (x, y) in RawEdges(OperationTable(v), true);
      }
    }
  }

  /** Drawing the `<=` table of `poset2model` without the dual flag gives an
      edge from every item down to every other item below it; with the
      dual flag, from every item up to every other item above it. */
  lemma OrderTableEdges(f: Orders.Family)
    ensures SetUtils.IsSquare(Orders.OrderTable(f))
    ensures forall x, y :: (x, y) in RawEdges(RelationTable(Orders.OrderTable(f)), false) <==>
              0 <= x < Orders.Size(f) && 0 <= y < Orders.Size(f) && x != y && Orders.Below(f, y, x)
    ensures forall x, y :: (x, y) in RawEdges(RelationTable(Orders.OrderTable(f)), true) <==>
              0 <= x < Orders.Size(f) && 0 <= y < Orders.Size(f) && x != y && Orders.Below(f, x, y)
  {
    var t := Orders.OrderTable(f);
    var n := Orders.Size(f);
    forall x, y ensures (x, y) in RawEdges(RelationTable(t), false) <==> 0 <= x < n && 0 <= y < n && x != y && Orders.Below(f, y, x) {
      if 0 <= x < n && 0 <= y < n && x != y && Orders.Below(f, y, x) {
        assert t[x][y];
      }
    }
    forall x, y ensures (x, y) in RawEdges(RelationTable(t), true) <==> 0 <= x < n && 0 <= y < n && x != y && Orders.Below(f, x, y) {
      if 0 <= x < n && 0 <= y < n && x != y && Orders.Below(f, x, y) {
        assert t[y][x];
      }
    }
  }

  datatype Colour = Red | Black

  /** Which edge set the diagram shows: the transitive reduction, or the raw
      edges when the reduction failed. */
  datatype Edges = Reduced(reduced: set<(int, int)>) | FallbackRaw(raw: set<(int, int)>)

  datatype Diagram = Diagram(colours: seq<Colour>, edges: Edges)

  /** The graph library's transitive reduction: a reduced edge set, or
      `None` where it raises (on a graph with a cycle). */
  type Reducer = set<(int, int)> -> Option<set<(int, int)>>

  /** `hasse_diagram(op, rel, dual, unary)`: node `x` is red exactly when
      `unary[x]` holds; the edges are the reduction of the raw edges, or the
      raw edges themselves when the reduction fails. */
  function HasseDiagram(t: Table, dual: bool, highlight: seq<bool>, reduce: Reducer): (d: Diagram)
    requires WellShaped(t) && |highlight| >= Size(t)
    ensures |d.colours| == Size(t)
    ensures forall x | 0 <= x < Size(t) :: d.colours[x] == Red <==> highlight[x]
    ensures d.edges.FallbackRaw? <==> reduce(RawEdges(t, dual)).None?
    ensures d.edges.FallbackRaw? ==> d.edges.raw == RawEdges(t, dual)
    ensures d.edges.Reduced? ==> Some(d.edges.reduced) == reduce(RawEdges(t, dual))
  {
    var raw := RawEdges(t, dual);
    var colours := seq(Size(t), x requires 0 <= x < Size(t) => if highlight[x] then Red else Black);
    match reduce(raw)
    case Some(g) => Diagram(colours, Reduced(g))
    case None => Diagram(colours, FallbackRaw(raw))
  }

  // ---------------------------------------------------------------------
  // m4diag
  // ---------------------------------------------------------------------

  /** A symbol token: a trailing `d` asks for the dual diagram of the symbol
      before it. An empty token has no last character. */
  function ParseSymbol(token: string): (r: Result<(string, bool)>)
    ensures r.Err? <==> token == []
    ensures r.Ok? ==> (r.value.1 <==> token[|token| - 1] == 'd')
    ensures r.Ok? ==> r.value.0 + (if r.value.1 then "d" else "") == token
  {
    if token == [] then Err(IndexError)
    else if token[|token| - 1] == 'd' then Ok((token[..|token| - 1], true))
    else Ok((token, false))
  }

  /** A name with the dual marker appended always reads back as that name,
      dual; a bare name reads back as itself exactly when it is not empty
      and does not itself end in `d`. */
  lemma ParseSymbolOfRendered(name: string)
    ensures ParseSymbol(name + "d") == Ok((name, true))
    ensures ParseSymbol(name) == Ok((name, false)) <==> name != [] && name[|name| - 1] != 'd'
  {
    assert (name + "d")[..|name|] == name;
  }

  /** `str.split(" ")`: the pieces between single spaces, empty pieces
      included; there is always at least one piece. */
  function Split(s: string): (r: seq<string>)
    ensures |r| >= 1
    ensures forall k | 0 <= k < |r| :: ' ' !in r[k]
  {
    if |s| == 0 then [""]
    else
      var init := Split(s[..|s| - 1]);
      var c := s[|s| - 1];
      if c == ' ' then init + [""]
      else init[..|init| - 1] + [init[|init| - 1] + [c]]
  }

  /** `" ".join(parts)`. */
  function Join(parts: seq<string>): string {
    if |parts| == 0 then ""
    else if |parts| == 1 then parts[0]
    else Join(parts[..|parts| - 1]) + " " + parts[|parts| - 1]
  }

  lemma {:induction false} JoinExtendLast(parts: seq<string>, c: char)
    requires |parts| >= 1
    ensures Join(parts[..|parts| - 1] + [parts[|parts| - 1] + [c]]) == Join(parts) + [c]
  {
    var n := |parts|;
    var extended := parts[..n - 1] + [parts[n - 1] + [c]];
    assert extended[..n - 1] == parts[..n - 1];
  }

  /** Joining the pieces of a split gives the string back. */
  lemma {:induction false} JoinSplit(s: string)
    ensures Join(Split(s)) == s
  {
    if |s| != 0 {
      var init := s[..|s| - 1];
      JoinSplit(init);
      var pieces := Split(init);
      if s[|s| - 1] == ' ' {
        assert (pieces + [""])[..|pieces|] == pieces;
      } else {
        JoinExtendLast(pieces, s[|s| - 1]);
      }
      assert init + [s[|s| - 1]] == s;
    }
  }

  lemma {:induction false} SplitWithoutSpace(p: string)
    requires ' ' !in p
    ensures Split(p) == [p]
  {
    if |p| != 0 {
      SplitWithoutSpace(p[..|p| - 1]);
      assert p[..|p| - 1] + [p[|p| - 1]] == p;
    }
  }

  lemma {:induction false} SplitAfterSpace(s: string, p: string)
    requires ' ' !in p
    ensures Split(s + " " + p) == Split(s) + [p]
  {
    if |p| == 0 {
      assert s + " " + p == s + " ";
      assert (s + " ")[..|s|] == s;
    } else {
      var q := p[..|p| - 1];
      SplitAfterSpace(s, q);
      var whole := s + " " + p;
      assert whole[..|whole| - 1] == s + " " + q;
      assert q + [p[|p| - 1]] == p;
    }
  }

  /** Splitting joined tokens gives the tokens back, provided there is at
      least one token and none contains a space. */
  lemma {:induction false} SplitJoin(parts: seq<string>)
    requires |parts| >= 1
    requires forall k | 0 <= k < |parts| :: ' ' !in parts[k]
    ensures Split(Join(parts)) == parts
  {
    if |parts| == 1 {
      SplitWithoutSpace(parts[0]);
    } else {
      var init := parts[..|parts| - 1];
      SplitJoin(init);
      SplitAfterSpace(Join(init), parts[|parts| - 1]);
      assert init + [parts[|parts| - 1]] == parts;
    }
  }

  /** `n` flags, none set: no node is highlighted. */
  function Unhighlighted(n: nat): (r: seq<bool>)
    ensures |r| == n && true !in r
  {
    seq(n, _ => false)
  }

  /** The highlight flags of `m4diag`: all false without a unary relation
      name; otherwise the named relation, which must exist. A row of a
      binary relation used in its place counts as true when it is not
      empty, as Python's truth test of a list does. */
  function Highlight(m: Structure, unaryRel: string): (r: Result<seq<bool>>)
    ensures r.Err? <==> unaryRel != "" && Lookup(m.relations, unaryRel).None?
    ensures r.Err? ==> r.error == KeyError(unaryRel)
    ensures unaryRel == "" ==> r.Ok? && |r.value| == m.cardinality && true !in r.value
    ensures unaryRel != "" && Lookup(m.relations, unaryRel).Some? && Lookup(m.relations, unaryRel).value.UnaryRel?
            ==> r == Ok(Lookup(m.relations, unaryRel).value.holds)
  {
    if unaryRel == "" then Ok(Unhighlighted(m.cardinality))
    else
      var found: Option<Relation> := Lookup(m.relations, unaryRel);
      match found
      case None => Err(KeyError(unaryRel))
      case Some(UnaryRel(h)) => Ok(h)
      case Some(BinaryRel(t)) => Ok(seq(|t|, i requires 0 <= i < |t| => |t[i]| > 0))
  }

  /** The table an operation is drawn from; a constant, or a non-empty
      unary table, cannot be indexed twice. */
  function OperationTableOf(op: Operation): (t: Option<Table>)
    ensures t.None? <==> op.Constant? || (op.UnaryOp? && |op.values| > 0)
    ensures op.BinaryOp? ==> t == Some(OperationTable(op.table))
  {
    match op
    case BinaryOp(v) => Some(OperationTable(v))
    case UnaryOp(v) => if |v| == 0 then Some(OperationTable([])) else None
    case Constant(_) => None
  }

  /** The table a relation is drawn from; a non-empty unary relation cannot
      be indexed twice. */
  function RelationTableOf(rel: Relation): (t: Option<Table>)
    ensures t.None? <==> rel.UnaryRel? && |rel.holds| > 0
    ensures rel.BinaryRel? ==> t == Some(RelationTable(rel.table))
  {
    match rel
    case BinaryRel(h) => Some(RelationTable(h))
    case UnaryRel(h) => if |h| == 0 then Some(RelationTable([])) else None
  }

  /** The table a defined name is drawn from: its operation's when it names
      an operation, its relation's otherwise. */
  function SymbolTable(m: Structure, name: string): Option<Table>
    requires Defines(m, name)
  {
    match Lookup(m.operations, name)
    case Some(op) => OperationTableOf(op)
    case None => RelationTableOf(Lookup(m.relations, name).value)
  }

  /** One `hasse_diagram` call, failing where Python indexing would. */
  function Draw(t: Option<Table>, dual: bool, highlight: seq<bool>, reduce: Reducer): (r: Result<seq<Diagram>>)
    ensures r.Ok? ==> t.Some? && WellShaped(t.value) && |highlight| >= Size(t.value)
    ensures r.Ok? ==> r.value == [HasseDiagram(t.value, dual, highlight, reduce)]
    ensures t.None? ==> r == Err(TypeError)
    ensures t.Some? && !(WellShaped(t.value) && |highlight| >= Size(t.value)) ==> r == Err(IndexError)
  {
    match t
    case None => Err(TypeError)
    case Some(table) =>
      if WellShaped(table) && |highlight| >= Size(table) then Ok([HasseDiagram(table, dual, highlight, reduce)])
      else Err(IndexError)
  }

  /** The diagrams one symbol token contributes for one structure: one
      diagram when the name is an operation (looked up first) or a
      relation, none when the structure defines neither. An empty token,
      an entry that cannot be indexed twice, and a table too small for its
      values or for the highlight flags raise. */
  function SymbolDiagram(m: Structure, token: string, highlight: seq<bool>, reduce: Reducer): (r: Result<seq<Diagram>>)
    ensures token == "" ==> r == Err(IndexError)
    ensures r.Ok? ==> |r.value| <= 1
    ensures r.Ok? ==> (|r.value| == 1 <==> Defines(m, ParseSymbol(token).value.0))
    ensures r.Ok? && Lookup(m.operations, ParseSymbol(token).value.0).Some? ==>
              var table := OperationTableOf(Lookup(m.operations, ParseSymbol(token).value.0).value);
              table.Some? && WellShaped(table.value) && |highlight| >= Size(table.value) &&
              r.value == [HasseDiagram(table.value, ParseSymbol(token).value.1, highlight, reduce)]
    ensures r.Ok? && Lookup(m.operations, ParseSymbol(token).value.0).None?
                  && Lookup(m.relations, ParseSymbol(token).value.0).Some? ==>
              var table := RelationTableOf(Lookup(m.relations, ParseSymbol(token).value.0).value);
              table.Some? && WellShaped(table.value) && |highlight| >= Size(table.value) &&
              r.value == [HasseDiagram(table.value, ParseSymbol(token).value.1, highlight, reduce)]
    ensures token != "" && !Defines(m, ParseSymbol(token).value.0) ==> r == Ok([])
    ensures token != "" && Defines(m, ParseSymbol(token).value.0) ==>
              var table := SymbolTable(m, ParseSymbol(token).value.0);
              (table.None? ==> r == Err(TypeError)) &&
              (table.Some? ==> (r.Ok? <==> WellShaped(table.value) && |highlight| >= Size(table.value))) &&
              (table.Some? && r.Err? ==> r.error == IndexError)
  {
    var (name, dual) :- ParseSymbol(token);
    match Lookup(m.operations, name)
    case Some(op) => Draw(OperationTableOf(op), dual, highlight, reduce)
    case None =>
      match Lookup(m.relations, name)
      case Some(rel) => Draw(RelationTableOf(rel), dual, highlight, reduce)
      case None => Ok([])
  }

  /** The lists of `parts`, one after another. */
  function Concat<T>(parts: seq<seq<T>>): (r: seq<T>)
    ensures (forall k | 0 <= k < |parts| :: |parts[k]| <= 1) ==> |r| <= |parts|
    ensures (forall k | 0 <= k < |parts| :: parts[k] == []) ==> r == []
    ensures |parts| == 1 ==> r == parts[0]
    ensures forall x | x in r :: exists k :: 0 <= k < |parts| && x in parts[k]
    ensures forall k, x | 0 <= k < |parts| && x in parts[k] :: x in r
  {
    if |parts| == 0 then []
    else
      assert forall k | 1 <= k < |parts| :: parts[1..][k - 1] == parts[k];
      parts[0] + Concat(parts[1..])
  }

  /** The diagrams of all tokens for one structure: those of every token,
      in token order, failing with the first token that fails. */
  function SymbolDiagrams(m: Structure, tokens: seq<string>, highlight: seq<bool>, reduce: Reducer): (r: Result<seq<Diagram>>)
    ensures r.Ok? <==> forall k | 0 <= k < |tokens| :: SymbolDiagram(m, tokens[k], highlight, reduce).Ok?
    ensures r.Err? ==> exists k :: 0 <= k < |tokens| && SymbolDiagram(m, tokens[k], highlight, reduce) == Err(r.error) &&
                                   forall j | 0 <= j < k :: SymbolDiagram(m, tokens[j], highlight, reduce).Ok?
    ensures r.Ok? ==> exists parts: seq<seq<Diagram>> ::
              |parts| == |tokens| &&
              (forall k | 0 <= k < |tokens| :: SymbolDiagram(m, tokens[k], highlight, reduce) == Ok(parts[k])) &&
              r.value == Concat(parts)
    ensures r.Ok? ==> |r.value| <= |tokens|
    ensures r.Ok? ==> forall k | 0 <= k < |tokens| :: tokens[k] != ""
    ensures (forall k | 0 <= k < |tokens| :: tokens[k] != "" && !Defines(m, ParseSymbol(tokens[k]).value.0))
            ==> r == Ok([])
  {
    var parts :- MapAll(t => SymbolDiagram(m, t, highlight, reduce), tokens);
    Ok(Concat(parts))
  }

  /** Tokens whose diagrams are known give their concatenation. */
  lemma SymbolDiagramsOfParts(m: Structure, tokens: seq<string>, parts: seq<seq<Diagram>>,
                              highlight: seq<bool>, reduce: Reducer)
    requires |parts| == |tokens|
    requires forall k | 0 <= k < |tokens| :: SymbolDiagram(m, tokens[k], highlight, reduce) == Ok(parts[k])
    ensures SymbolDiagrams(m, tokens, highlight, reduce) == Ok(Concat(parts))
  {
    var r := SymbolDiagrams(m, tokens, highlight, reduce);
    var found: seq<seq<Diagram>> :| |found| == |tokens| &&
      (forall k | 0 <= k < |tokens| :: SymbolDiagram(m, tokens[k], highlight, reduce) == Ok(found[k])) &&
      r.value == Concat(found);
    assert found == parts;
  }

  /** The diagrams `m4diag` draws for one structure: its highlight flags,
      then the diagrams of the tokens. */
  function ModelDiagrams(m: Structure, tokens: seq<string>, unaryRel: string, reduce: Reducer)
    : (r: Result<seq<Diagram>>)
    ensures r.Ok? <==> Highlight(m, unaryRel).Ok? && SymbolDiagrams(m, tokens, Highlight(m, unaryRel).value, reduce).Ok?
    ensures r.Ok? ==> SymbolDiagrams(m, tokens, Highlight(m, unaryRel).value, reduce) == r
    ensures Highlight(m, unaryRel).Err? ==> r == Err(Highlight(m, unaryRel).error)
    ensures Highlight(m, unaryRel).Ok? && r.Err? ==> SymbolDiagrams(m, tokens, Highlight(m, unaryRel).value, reduce) == r
  {
    var highlight :- Highlight(m, unaryRel);
    SymbolDiagrams(m, tokens, highlight, reduce)
  }

  /** `m4diag(li, symbols, unaryRel)`: for every structure, the diagrams of
      the space-separated symbols it defines, highlighted by `unaryRel`. */
  function M4Diag(models: seq<Structure>, symbols: string, unaryRel: string, reduce: Reducer): (r: Result<seq<seq<Diagram>>>)
    ensures r.Ok? ==> |r.value| == |models|
    ensures |models| > 0 && "" in Split(symbols) ==> r.Err?
    ensures r.Ok? ==> forall i | 0 <= i < |models| :: |r.value[i]| <= |Split(symbols)|
    ensures r.Ok? <==> forall i | 0 <= i < |models| ::
              Highlight(models[i], unaryRel).Ok? &&
              SymbolDiagrams(models[i], Split(symbols), Highlight(models[i], unaryRel).value, reduce).Ok?
    ensures r.Ok? ==> forall i | 0 <= i < |models| ::
              SymbolDiagrams(models[i], Split(symbols), Highlight(models[i], unaryRel).value, reduce) == Ok(r.value[i])
    ensures r.Err? ==>
              exists i :: 0 <= i < |models| &&
                ModelDiagrams(models[i], Split(symbols), unaryRel, reduce) == Err(r.error) &&
                forall j | 0 <= j < i :: ModelDiagrams(models[j], Split(symbols), unaryRel, reduce).Ok?
  {
    var tokens := Split(symbols);
    MapAll(m => ModelDiagrams(m, tokens, unaryRel, reduce), models)
  }

  // ---------------------------------------------------------------------
  // show
  // ---------------------------------------------------------------------

  /** The symbols `show` may pick by default, listed in the order it
      considers them. */
  datatype DefaultSymbol = OrderSymbol | MeetSymbol | JoinSymbol | SumSymbol | ProductSymbol

  /** The symbol's name in a structure. */
  function Name(d: DefaultSymbol): string {
    match d
    case OrderSymbol => "<="
    case MeetSymbol => "^"
    case JoinSymbol => "v"
    case SumSymbol => "+"
    case ProductSymbol => "*"
  }

  /** The order, the meet and the product are drawn dual (largest on top
      for a meet and the product, as a lattice is drawn). */
  predicate DrawnDual(d: DefaultSymbol) {
    d == OrderSymbol || d == MeetSymbol || d == ProductSymbol
  }

  /** The token `show` writes for the symbol. */
  function Token(d: DefaultSymbol): string {
    Name(d) + (if DrawnDual(d) then "d" else "")
  }

  function Rank(d: DefaultSymbol): nat {
    match d
    case OrderSymbol => 0
    case MeetSymbol => 1
    case JoinSymbol => 2
    case SumSymbol => 3
    case ProductSymbol => 4
  }

  /** `<=` is looked for among the relations, the others among the
      operations. */
  predicate HasDefault(m: Structure, d: DefaultSymbol) {
    if d == OrderSymbol then Lookup(m.relations, Name(d)).Some?
    else Lookup(m.operations, Name(d)).Some?
  }

  /** The symbols in strictly increasing rank. */
  predicate RankSorted(r: seq<DefaultSymbol>) {
    forall i, j | 0 <= i < j < |r| :: Rank(r[i]) < Rank(r[j])
  }

  /** The five symbols in the order `show` tests them. */
  const AllDefaults: seq<DefaultSymbol> := [OrderSymbol, MeetSymbol, JoinSymbol, SumSymbol, ProductSymbol]

  lemma AllDefaultsListed(d: DefaultSymbol)
    ensures d in AllDefaults
    ensures RankSorted(AllDefaults)
  {
    match d
    case OrderSymbol =>
    case MeetSymbol =>
    case JoinSymbol =>
    case SumSymbol =>
    case ProductSymbol =>
  }

  /** The candidates satisfying `present`, in their order: the sequence of
      `if ...: ops.append(...)` tests. */
  function SelectDefaults(present: DefaultSymbol -> bool, candidates: seq<DefaultSymbol>): (r: seq<DefaultSymbol>)
    requires RankSorted(candidates)
    ensures forall d :: d in r <==> d in candidates && present(d)
    ensures RankSorted(r)
  {
    if |candidates| == 0 then []
    else
      var rest := SelectDefaults(present, candidates[1..]);
      assert forall d | d in rest :: Rank(candidates[0]) < Rank(d) by {
        forall d | d in rest ensures Rank(candidates[0]) < Rank(d) {
          var j :| 0 <= j < |candidates[1..]| && candidates[1..][j] == d;
          assert candidates[j + 1] == d;
        }
      }
      if present(candidates[0]) then [candidates[0]] + rest else rest
  }

  /** The default symbols of `show`: each one the first structure has,
      and no other, in the fixed order order, meet, join, sum, product. */
  function DefaultSymbolsOf(m: Structure): (r: seq<DefaultSymbol>)
    ensures forall d :: d in r <==> HasDefault(m, d)
    ensures RankSorted(r)
  {
    AllDefaultsListed(OrderSymbol);
    var r := SelectDefaults(d => HasDefault(m, d), AllDefaults);
    assert forall d :: d in r <==> HasDefault(m, d) by {
      forall d ensures d in r <==> HasDefault(m, d) {
        AllDefaultsListed(d);
      }
    }
    r
  }

  /** The tokens of the default symbols, `"<=d"`, `"^d"`, `"v"`, `"+"`, `"*d"`. */
  function DefaultOps(m: Structure): (r: seq<string>)
    ensures |r| == |DefaultSymbolsOf(m)|
    ensures forall k | 0 <= k < |r| :: r[k] == Token(DefaultSymbolsOf(m)[k])
  {
    var syms := DefaultSymbolsOf(m);
    seq(|syms|, k requires 0 <= k < |syms| => Token(syms[k]))
  }

  /** A default token reads back as its symbol's name and dual flag. */
  lemma ParseToken(d: DefaultSymbol)
    ensures ParseSymbol(Token(d)) == Ok((Name(d), DrawnDual(d)))
    ensures ' ' !in Token(d)
  {
    ParseSymbolOfRendered(Name(d));
  }

  /** Every default token of `show` reads back as a symbol the structure
      defines, with the dual flag on exactly for `<=`, `^` and `*`: none
      is skipped by `m4diag`. */
  lemma DefaultOpsAreDrawn(m: Structure)
    ensures forall k | 0 <= k < |DefaultOps(m)| ::
              ParseSymbol(DefaultOps(m)[k]).Ok? && Defines(m, ParseSymbol(DefaultOps(m)[k]).value.0)
    ensures forall k | 0 <= k < |DefaultOps(m)| ::
              ParseSymbol(DefaultOps(m)[k]).value.1 <==> DrawnDual(DefaultSymbolsOf(m)[k])
  {
    var syms := DefaultSymbolsOf(m);
    forall k | 0 <= k < |syms|
      ensures ParseSymbol(DefaultOps(m)[k]).Ok? && Defines(m, ParseSymbol(DefaultOps(m)[k]).value.0)
      ensures ParseSymbol(DefaultOps(m)[k]).value.1 <==> DrawnDual(syms[k])
    {
      ParseToken(syms[k]);
      assert syms[k] in syms;
    }
  }

  /** The characters `str.strip()` removes: those Python's `str.isspace`
      accepts. */
  predicate IsSpace(c: char) {
    var n := c as int;
    || 9 <= n <= 13 || 28 <= n <= 32 || n == 0x85 || n == 0xA0 || n == 0x1680
    || 0x2000 <= n <= 0x200A || n == 0x2028 || n == 0x2029 || n == 0x202F || n == 0x205F || n == 0x3000
  }

  /** The end of the run of whitespace starting at `i`. */
  function LeadingEnd(s: string, i: nat): (e: nat)
    requires i <= |s|
    ensures i <= e <= |s|
    ensures forall k | i <= k < e :: IsSpace(s[k])
    ensures e == |s| || !IsSpace(s[e])
    decreases |s| - i
  {
    if i < |s| && IsSpace(s[i]) then LeadingEnd(s, i + 1) else i
  }

  /** The start of the run of whitespace ending at `j`, not going below
      `lo`. */
  function TrailingStart(s: string, lo: nat, j: nat): (b: nat)
    requires lo <= j <= |s|
    ensures lo <= b <= j
    ensures forall k | b <= k < j :: IsSpace(s[k])
    ensures b == lo || !IsSpace(s[b - 1])
    decreases j
  {
    if lo < j && IsSpace(s[j - 1]) then TrailingStart(s, lo, j - 1) else j
  }

  /** `r` sits at offset `i` of `s` with only whitespace around it. */
  predicate TrimmedAt(s: string, r: string, i: nat) {
    && i + |r| <= |s|
    && r == s[i..i + |r|]
    && (forall k | 0 <= k < i :: IsSpace(s[k]))
    && (forall k | i + |r| <= k < |s| :: IsSpace(s[k]))
  }

  /** `str.strip()`: a slice of `s` that neither starts nor ends with
      whitespace, with only whitespace cut off around it. */
  function Strip(s: string): (r: string)
    ensures exists i | 0 <= i <= |s| - |r| :: TrimmedAt(s, r, i)
    ensures r == [] || (!IsSpace(r[0]) && !IsSpace(r[|r| - 1]))
  {
    var i := LeadingEnd(s, 0);
    var j := TrailingStart(s, i, |s|);
    assert TrimmedAt(s, s[i..j], i);
    s[i..j]
  }

  /** A string with no whitespace at either end is left as it is, so
      stripping twice is stripping once. */
  lemma StripIdempotent(s: string)
    ensures s == [] || (!IsSpace(s[0]) && !IsSpace(s[|s| - 1])) ==> Strip(s) == s
    ensures Strip(Strip(s)) == Strip(s)
  {
    StripUnchanged(s);
    StripUnchanged(Strip(s));
  }

  /** Stripping a string with no whitespace at either end removes nothing. */
  lemma StripUnchanged(s: string)
    ensures s == [] || (!IsSpace(s[0]) && !IsSpace(s[|s| - 1])) ==> Strip(s) == s
  {
    if s == [] || (!IsSpace(s[0]) && !IsSpace(s[|s| - 1])) {
      assert LeadingEnd(s, 0) == 0;
      assert TrailingStart(s, 0, |s|) == |s|;
      assert s[0..|s|] == s;
    }
  }

  /** The symbols `show` passes on: the defaults of the first structure when
      none were given, the given ones stripped otherwise. */
  function ChosenOps(first: Structure, ops: seq<string>): (r: seq<string>)
    ensures ops == [] ==> r == DefaultOps(first)
    ensures ops != [] ==> |r| == |ops| && forall k | 0 <= k < |ops| :: r[k] == Strip(ops[k])
  {
    if ops == [] then DefaultOps(first) else seq(|ops|, k requires 0 <= k < |ops| => Strip(ops[k]))
  }

  /** What `show` is given, with Python's run-time type dispatch made
      explicit: structures, one family of comparable items, or a list of
      such families. */
  datatype Showable =
    | Models(models: seq<Structure>)
    | OneFamily(family: Orders.Family)
    | Families(families: seq<Orders.Family>)

  /** The symbols `m4diag` draws when it is given none. */
  const DefaultSymbols: string := "<= v"

  /** Family `i` is the first of `fs` that `poset2model`, as written,
      rejects, and `e` is its error: `EmptyFamily` when it is empty,
      `TypeError` when it holds numbers. */
  predicate FirstFailingFamily(fs: seq<Orders.Family>, i: int, e: Error) {
    && 0 <= i < |fs|
    && (Orders.Size(fs[i]) == 0 || fs[i].Chain?)
    && e == (if Orders.Size(fs[i]) == 0 then EmptyFamily else TypeError)
    && forall j | 0 <= j < i :: Orders.Size(fs[j]) > 0 && !fs[j].Chain?
  }

  /** `poset2model` of every family, as written: the first family that is
      empty, or whose members are numbers, stops the list with its error. */
  function PosetModels(fs: seq<Orders.Family>): (r: Result<seq<Structure>>)
    ensures r.Err? <==> exists i :: 0 <= i < |fs| && (Orders.Size(fs[i]) == 0 || fs[i].Chain?)
    ensures r.Err? ==> exists i :: FirstFailingFamily(fs, i, r.error)
    ensures r.Ok? ==> |r.value| == |fs|
    ensures r.Ok? ==> forall i | 0 <= i < |fs| :: Orders.Poset2Model(fs[i]) == Ok(r.value[i])
  {
    var r := MapAll(Orders.Poset2ModelAsWritten, fs);
    if r.Err? then
      var i :| 0 <= i < |fs| && Orders.Poset2ModelAsWritten(fs[i]) == Err(r.error) &&
               forall j | 0 <= j < i :: Orders.Poset2ModelAsWritten(fs[j]).Ok?;
      assert FirstFailingFamily(fs, i, r.error);
      r
    else r
  }

  /** The diagram `show` draws for one family: the `<=` relation of its
      structure, not dual, with no node highlighted. */
  function OrderDiagram(f: Orders.Family, reduce: Reducer): Diagram {
    HasseDiagram(RelationTable(Orders.OrderTable(f)), false, Unhighlighted(Orders.Size(f)), reduce)
  }

  /** The tokens `m4diag` splits out of the joined symbol list are exactly
      the symbols `show` chose, provided there is at least one and none
      contains a space. */
  lemma ShowPassesChosenOps(first: Structure, ops: seq<string>)
    requires |ChosenOps(first, ops)| >= 1
    requires forall k | 0 <= k < |ops| :: ' ' !in Strip(ops[k])
    ensures Split(Join(ChosenOps(first, ops))) == ChosenOps(first, ops)
  {
    var chosen := ChosenOps(first, ops);
    forall k | 0 <= k < |chosen| ensures ' ' !in chosen[k] {
      if ops == [] {
        ParseToken(DefaultSymbolsOf(first)[k]);
      }
    }
    SplitJoin(chosen);
  }

  /** The default symbol list of `m4diag` splits into `<=` and `v`. */
  lemma DefaultSymbolsSplit()
    ensures Split(DefaultSymbols) == ["<=", "v"]
  {
    assert ["<=", "v"][..1] == ["<="];
    assert Join(["<=", "v"]) == DefaultSymbols;
    SplitJoin(["<=", "v"]);
  }

  /** A structure whose only symbol is the relation `<=` gets exactly one
      diagram from the symbols `<=` and `v`: that of `<=`, not dual. */
  lemma OrderOnlyDiagrams(m: Structure, t: seq<seq<bool>>, highlight: seq<bool>, reduce: Reducer)
    requires m.operations == [] && m.relations == [("<=", BinaryRel(t))]
    requires SetUtils.IsSquare(t) && |highlight| >= |t|
    ensures SymbolDiagrams(m, ["<=", "v"], highlight, reduce) ==
              Ok([HasseDiagram(RelationTable(t), false, highlight, reduce)])
  {
    var d := HasseDiagram(RelationTable(t), false, highlight, reduce);
    assert ParseSymbol("<=") == Ok(("<=", false));
    assert ParseSymbol("v") == Ok(("v", false));
    assert SymbolDiagram(m, "<=", highlight, reduce) == Ok([d]);
    assert SymbolDiagram(m, "v", highlight, reduce) == Ok([]);
    SymbolDiagramsOfParts(m, ["<=", "v"], [[d], []], highlight, reduce);
    assert Concat([[d], []]) == [d] + Concat([[d], []][1..]);
    assert [[d], []][1..] == [[]];
    assert [d] + Concat([[]]) == [d];
  }

  /** `m4diag` with its default symbols draws, for the structure of every
      family, exactly the diagram of its order. */
  lemma FamiliesDrawOrder(fs: seq<Orders.Family>, ms: seq<Structure>, reduce: Reducer)
    requires |ms| == |fs|
    requires forall i | 0 <= i < |fs| :: Orders.Poset2Model(fs[i]) == Ok(ms[i])
    ensures M4Diag(ms, DefaultSymbols, "", reduce).Ok?
    ensures |M4Diag(ms, DefaultSymbols, "", reduce).value| == |fs|
    ensures forall i | 0 <= i < |fs| :: M4Diag(ms, DefaultSymbols, "", reduce).value[i] == [OrderDiagram(fs[i], reduce)]
  {
    DefaultSymbolsSplit();
    forall i | 0 <= i < |fs|
      ensures Highlight(ms[i], "").Ok?
      ensures SymbolDiagrams(ms[i], Split(DefaultSymbols), Highlight(ms[i], "").value, reduce) ==
                Ok([OrderDiagram(fs[i], reduce)])
    {
      var highlight := Unhighlighted(Orders.Size(fs[i]));
      assert Highlight(ms[i], "") == Ok(highlight);
      OrderOnlyDiagrams(ms[i], Orders.OrderTable(fs[i]), highlight, reduce);
    }
  }

  /** Structure `i` is the first of `ms` whose unhighlighted diagrams of
      `tokens` fail, and it fails with `e`. */
  predicate FirstFailingModel(ms: seq<Structure>, tokens: seq<string>, reduce: Reducer, i: int, e: Error) {
    && 0 <= i < |ms|
    && SymbolDiagrams(ms[i], tokens, Unhighlighted(ms[i].cardinality), reduce) == Err(e)
    && forall j | 0 <= j < i :: SymbolDiagrams(ms[j], tokens, Unhighlighted(ms[j].cardinality), reduce).Ok?
  }

  /** `show` on structures: with no symbols and none of the defaults
      defined, the joined list is empty and its one token fails; otherwise
      every structure gets the diagrams of the chosen symbols, unhighlighted. */
  lemma ModelsDrawChosenOps(ms: seq<Structure>, ops: seq<string>, reduce: Reducer)
    requires |ms| > 0
    ensures ops == [] && (forall d :: !HasDefault(ms[0], d)) ==>
              M4Diag(ms, Join(ChosenOps(ms[0], ops)), "", reduce).Err?
    ensures |ChosenOps(ms[0], ops)| >= 1 && (forall j | 0 <= j < |ops| :: ' ' !in Strip(ops[j])) &&
            M4Diag(ms, Join(ChosenOps(ms[0], ops)), "", reduce).Ok? ==>
              forall i | 0 <= i < |ms| ::
                SymbolDiagrams(ms[i], ChosenOps(ms[0], ops), Unhighlighted(ms[i].cardinality), reduce) ==
                  Ok(M4Diag(ms, Join(ChosenOps(ms[0], ops)), "", reduce).value[i])
    ensures |ChosenOps(ms[0], ops)| >= 1 && (forall j | 0 <= j < |ops| :: ' ' !in Strip(ops[j])) ==>
              (M4Diag(ms, Join(ChosenOps(ms[0], ops)), "", reduce).Ok? <==>
                 forall i | 0 <= i < |ms| ::
                   SymbolDiagrams(ms[i], ChosenOps(ms[0], ops), Unhighlighted(ms[i].cardinality), reduce).Ok?)
    ensures |ChosenOps(ms[0], ops)| >= 1 && (forall j | 0 <= j < |ops| :: ' ' !in Strip(ops[j])) &&
            M4Diag(ms, Join(ChosenOps(ms[0], ops)), "", reduce).Err? ==>
              exists i :: FirstFailingModel(ms, ChosenOps(ms[0], ops), reduce, i,
                                            M4Diag(ms, Join(ChosenOps(ms[0], ops)), "", reduce).error)
  {
    var chosen := ChosenOps(ms[0], ops);
    if ops == [] && (forall d :: !HasDefault(ms[0], d)) {
      assert DefaultSymbolsOf(ms[0]) == [];
      assert chosen == [];
      assert Split(Join([])) == [""];
    }
    if |chosen| >= 1 && (forall j | 0 <= j < |ops| :: ' ' !in Strip(ops[j])) {
      ShowPassesChosenOps(ms[0], ops);
      forall i | 0 <= i < |ms|
        ensures Highlight(ms[i], "") == Ok(Unhighlighted(ms[i].cardinality))
        ensures ModelDiagrams(ms[i], chosen, "", reduce) ==
                  SymbolDiagrams(ms[i], chosen, Unhighlighted(ms[i].cardinality), reduce)
      {
      }
      var r := M4Diag(ms, Join(chosen), "", reduce);
      if r.Err? {
        var i :| 0 <= i < |ms| && ModelDiagrams(ms[i], chosen, "", reduce) == Err(r.error) &&
                 forall j | 0 <= j < i :: ModelDiagrams(ms[j], chosen, "", reduce).Ok?;
        assert FirstFailingModel(ms, chosen, reduce, i, r.error);
      }
    }
  }

  /** `show` on a list of structures: `m4diag` of the chosen symbols,
      joined by spaces, with no node highlighted. */
  function ShowModels(ms: seq<Structure>, ops: seq<string>, reduce: Reducer): (r: Result<seq<seq<Diagram>>>)
    ensures |ms| == 0 ==> r == Ok([])
    ensures |ms| > 0 && ops == [] && (forall d :: !HasDefault(ms[0], d)) ==> r.Err?
    ensures |ms| > 0 && |ChosenOps(ms[0], ops)| >= 1 &&
            (forall j | 0 <= j < |ops| :: ' ' !in Strip(ops[j])) && r.Ok? ==>
              |r.value| == |ms| &&
              forall i | 0 <= i < |ms| ::
                SymbolDiagrams(ms[i], ChosenOps(ms[0], ops), Unhighlighted(ms[i].cardinality), reduce)
                  == Ok(r.value[i])
    ensures |ms| > 0 && |ChosenOps(ms[0], ops)| >= 1 &&
            (forall j | 0 <= j < |ops| :: ' ' !in Strip(ops[j])) ==>
              (r.Ok? <==> forall i | 0 <= i < |ms| ::
                 SymbolDiagrams(ms[i], ChosenOps(ms[0], ops), Unhighlighted(ms[i].cardinality), reduce).Ok?)
    ensures |ms| > 0 && |ChosenOps(ms[0], ops)| >= 1 &&
            (forall j | 0 <= j < |ops| :: ' ' !in Strip(ops[j])) && r.Err? ==>
              exists i :: FirstFailingModel(ms, ChosenOps(ms[0], ops), reduce, i, r.error)
  {
    if |ms| > 0 then
      ModelsDrawChosenOps(ms, ops, reduce);
      M4Diag(ms, Join(ChosenOps(ms[0], ops)), "", reduce)
    else M4Diag([], DefaultSymbols, "", reduce)
  }

  /** `show` on one family: `m4diag` of the structure `poset2model`, as
      written, builds for it. */
  function ShowFamily(f: Orders.Family, reduce: Reducer): (r: Result<seq<seq<Diagram>>>)
    ensures r.Err? <==> Orders.Size(f) == 0 || f.Chain?
    ensures Orders.Size(f) == 0 ==> r == Err(EmptyFamily)
    ensures Orders.Size(f) > 0 && f.Chain? ==> r == Err(TypeError)
    ensures r.Ok? ==> r.value == [[OrderDiagram(f, reduce)]]
  {
    var m :- Orders.Poset2ModelAsWritten(f);
    FamiliesDrawOrder([f], [m], reduce);
    M4Diag([m], DefaultSymbols, "", reduce)
  }

  /** `show` on a list of families: `m4diag` of the structures
      `poset2model`, as written, builds for them. */
  function ShowFamilies(fs: seq<Orders.Family>, reduce: Reducer): (r: Result<seq<seq<Diagram>>>)
    ensures r.Err? <==> exists i :: 0 <= i < |fs| && (Orders.Size(fs[i]) == 0 || fs[i].Chain?)
    ensures r.Err? ==> exists i :: FirstFailingFamily(fs, i, r.error)
    ensures r.Ok? ==> |r.value| == |fs| && forall i | 0 <= i < |fs| :: r.value[i] == [OrderDiagram(fs[i], reduce)]
  {
    var ms :- PosetModels(fs);
    FamiliesDrawOrder(fs, ms, reduce);
    M4Diag(ms, DefaultSymbols, "", reduce)
  }

  /** `show(K, ops)` for one call. */
  function Show(k: Showable, ops: seq<string>, reduce: Reducer): (r: Result<seq<seq<Diagram>>>)
    ensures k.Models? && |k.models| == 0 ==> r == Ok([])
    ensures k.Models? && |k.models| > 0 && ops == [] && (forall d :: !HasDefault(k.models[0], d)) ==> r.Err?
    ensures k.Models? && |k.models| > 0 && |ChosenOps(k.models[0], ops)| >= 1 &&
            (forall j | 0 <= j < |ops| :: ' ' !in Strip(ops[j])) && r.Ok? ==>
              |r.value| == |k.models| &&
              forall i | 0 <= i < |k.models| ::
                SymbolDiagrams(k.models[i], ChosenOps(k.models[0], ops), Unhighlighted(k.models[i].cardinality), reduce)
                  == Ok(r.value[i])
    ensures k.Models? && |k.models| > 0 && |ChosenOps(k.models[0], ops)| >= 1 &&
            (forall j | 0 <= j < |ops| :: ' ' !in Strip(ops[j])) ==>
              (r.Ok? <==> forall i | 0 <= i < |k.models| ::
                 SymbolDiagrams(k.models[i], ChosenOps(k.models[0], ops), Unhighlighted(k.models[i].cardinality), reduce).Ok?)
    ensures k.Models? && |k.models| > 0 && |ChosenOps(k.models[0], ops)| >= 1 &&
            (forall j | 0 <= j < |ops| :: ' ' !in Strip(ops[j])) && r.Err? ==>
              exists i :: FirstFailingModel(k.models, ChosenOps(k.models[0], ops), reduce, i, r.error)
    ensures k.OneFamily? ==> (r.Err? <==> Orders.Size(k.family) == 0 || k.family.Chain?)
    ensures k.OneFamily? && Orders.Size(k.family) == 0 ==> r == Err(EmptyFamily)
    ensures k.OneFamily? && Orders.Size(k.family) > 0 && k.family.Chain? ==> r == Err(TypeError)
    ensures k.OneFamily? && r.Ok? ==> r.value == [[OrderDiagram(k.family, reduce)]]
    ensures k.Families? ==>
              (r.Err? <==> exists i :: 0 <= i < |k.families| && (Orders.Size(k.families[i]) == 0 || k.families[i].Chain?))
    ensures k.Families? && r.Err? ==>
              exists i :: FirstFailingFamily(k.families, i, r.error)
    ensures k.Families? && r.Ok? ==>
              |r.value| == |k.families| &&
              forall i | 0 <= i < |k.families| :: r.value[i] == [OrderDiagram(k.families[i], reduce)]
  {
    match k
    case Models(_) => ShowModels(k.models, ops, reduce)
    case OneFamily(_) => ShowFamily(k.family, reduce)
    case Families(_) => ShowFamilies(k.families, reduce)
  }
}
