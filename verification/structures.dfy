/** The finite structures (Mace4 models) the helpers of Prover9.py consume
    and produce.

    A structure has a cardinality `n` (its domain is `0..n-1`), named
    operations and named relations. Python dictionaries keep insertion
    order, and several helpers iterate over them, so both maps are
    association lists in that order. */
module Structures {

  import opened Results

  /** An operation is a constant, a unary table or a binary table. */
  datatype Operation =
    | Constant(value: int)
    | UnaryOp(values: seq<int>)
    | BinaryOp(table: seq<seq<int>>)

  /** A relation is a unary or a binary boolean table. */
  datatype Relation =
    | UnaryRel(holds: seq<bool>)
    | BinaryRel(table: seq<seq<bool>>)

  datatype Structure = Structure(
    cardinality: nat,
    operations: seq<(string, Operation)>,
    relations: seq<(string, Relation)>)

  /** The value stored under `key`: the first entry with that name, as a
      dictionary lookup sees it. */
  function Lookup<V>(entries: seq<(string, V)>, key: string): (r: Option<V>)
    ensures r.None? <==> forall i | 0 <= i < |entries| :: entries[i].0 != key
    ensures r.Some? ==> exists i :: 0 <= i < |entries| && entries[i] == (key, r.value)
  {
    if |entries| == 0 then None
    else if entries[0].0 == key then Some(entries[0].1)
    else
      var r := Lookup(entries[1..], key);
      assert forall i | 0 < i < |entries| :: entries[1..][i - 1] == entries[i];
      r
  }

  /** The structure defines `name` as an operation or as a relation. */
  predicate Defines(m: Structure, name: string) {
    Lookup(m.operations, name).Some? || Lookup(m.relations, name).Some?
  }
}
