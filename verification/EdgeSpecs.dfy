/** The edge part of a specification for the library: which ids an edge is cleared of, and which are
    linked over it. */
module EdgeSpecs {
  import opened Seqs
  import opened Schema

  /** An entry of Edges.Clear or Edges.Add. In Edges.Clear no target means every target. */
  datatype EdgeSpec = EdgeSpec(edge: Edge, nodes: seq<Value>)

  function In(m: map<Edge, set<Value>>, e: Edge): set<Value> {
    if e in m then m[e] else {}
  }

  function Ids(nodes: seq<Value>): (s: set<Value>)
    ensures s == Elems(nodes)
  {
    set v | v in nodes
  }

  function ApplyClears(specs: seq<EdgeSpec>, e: Edge, s: set<Value>): set<Value> {
    if specs == [] then s
    else
      var rest, last := ApplyClears(specs[..|specs| - 1], e, s), specs[|specs| - 1];
      if last.edge != e then rest else if last.nodes == [] then {} else rest - Ids(last.nodes)
  }

  /** Adding to a to-one edge overwrites the foreign key. */
  function ApplyAdds(specs: seq<EdgeSpec>, e: Edge, s: set<Value>): set<Value> {
    if specs == [] then s
    else
      var rest, last := ApplyAdds(specs[..|specs| - 1], e, s), specs[|specs| - 1];
      if last.edge != e then rest else if e.Rel().M2O? then Ids(last.nodes) else rest + Ids(last.nodes)
  }

  /** Ranging over a Go map: its keys, each once, in any order. */
  method Range(s: set<Value>) returns (ids: seq<Value>)
    ensures Elems(ids) == s && Distinct(ids)
  {
    ids := [];
    var todo := s;
    while todo != {}
      invariant todo <= s && Elems(ids) == s - todo && Distinct(ids)
      decreases todo
    {
      var id :| id in todo;
      assert id !in Elems(ids);
      ElemsSnoc(ids, id);
      SnocDistinct(ids, id);
      ids, todo := ids + [id], todo - {id};
    }
  }
}
