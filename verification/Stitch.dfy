/** The three stitchers: the hash indexes a load builds over its parents, and the loops that
    attach the returned entities through them. */
module Stitch {
  import opened Seqs
  import opened Schema
  import opened Store
  import opened Loading

  // ---------------------------------------------------------------- many-to-one

  /** The parents grouped by a foreign key: none lost, none in two groups or twice in one, no
      empty group. */
  ghost predicate Grouped(parents: set<Node>, fk: Column, nodeids: map<Value, seq<Node>>) {
    && (forall n :: n in parents ==> Get(n.src, fk) in nodeids && n in nodeids[Get(n.src, fk)])
    && (forall v, n :: v in nodeids && n in nodeids[v] ==> n in parents && Get(n.src, fk) == v)
    && (forall v :: v in nodeids ==> nodeids[v] != [] && Distinct(nodeids[v]))
  }

  /** The first loop of a many-to-one load: the foreign keys, each once, and the parents
      behind each of them. */
  method GroupByKey(nodes: seq<Node>, fk: Column) returns (ids: seq<Value>, nodeids: map<Value, seq<Node>>)
    requires Readable(nodes, fk) && Distinct(nodes)
    ensures Distinct(ids) && forall v :: v in ids <==> v in nodeids
    ensures Grouped(Elems(nodes), fk, nodeids)
  {
    ids, nodeids := [], map[];
    var i := 0;
    while i < |nodes|
      invariant 0 <= i <= |nodes|
      invariant Distinct(ids) && forall v :: v in ids <==> v in nodeids
      invariant Grouped(Elems(nodes[..i]), fk, nodeids)
    {
      var v := Get(nodes[i].fields, fk);
      TakeSnoc(nodes, i);
      GroupStep(Elems(nodes[..i]), nodes[i], fk, nodeids);
      if v !in nodeids {
        ids := ids + [v];
      }
      nodeids := nodeids[v := (if v in nodeids then nodeids[v] else []) + [nodes[i]]];
      i := i + 1;
    }
    assert nodes[..i] == nodes;
  }

  lemma GroupStep(parents: set<Node>, n: Node, fk: Column, nodeids: map<Value, seq<Node>>)
    requires n !in parents && Grouped(parents, fk, nodeids)
    ensures var v := Get(n.src, fk);
            Grouped(parents + {n}, fk, nodeids[v := (if v in nodeids then nodeids[v] else []) + [n]])
  {
  }

  /** assign(nodes[i], n) for every parent behind one foreign key. */
  method AttachGroup(e: Edge, group: seq<Node>, k: Node, ghost parents: set<Node>)
    requires Distinct(group) && forall n :: n in group ==> n in parents
    modifies parents`one
    ensures forall n :: n in parents ==> n.one == if n in group then old(n.one)[e := k] else old(n.one)
  {
    var i := 0;
    while i < |group|
      invariant 0 <= i <= |group|
      invariant forall h :: 0 <= h < i ==> group[h].one == old(group[h].one)[e := k]
      invariant forall h :: i <= h < |group| ==> group[h].one == old(group[h].one)
      invariant forall n :: n in parents && n !in group ==> n.one == old(n.one)
    {
      group[i].one := group[i].one[e := k];
      i := i + 1;
    }
  }

  /** A to-one edge after stitching: the entity with id `v`, or what was there before. */
  ghost predicate Pointed(now: map<Edge, Node>, before: map<Edge, Node>, e: Edge, neighbors: seq<Node>, upto: nat,
                          v: Value)
    requires upto <= |neighbors|
  {
    && (forall h :: 0 <= h < upto && IdOf(neighbors[h].src) == v ==> now == before[e := neighbors[h]])
    && ((forall h :: 0 <= h < upto ==> IdOf(neighbors[h].src) != v) ==> now == before)
  }

  /** The last loop of a many-to-one load: every parent points at the entity its foreign key
      names, and a parent none names keeps what it had. It fails, and only then, on an entity
      whose id is the foreign key of no parent. */
  method AttachOne(e: Edge, fk: Column, ghost parents: set<Node>, nodeids: map<Value, seq<Node>>, neighbors: seq<Node>)
    returns (bad: Option<Value>)
    requires DistinctKeys(neighbors) && Readable(neighbors, Id)
    requires Grouped(parents, fk, nodeids)
    modifies parents`one
    ensures bad.None? <==> forall h :: 0 <= h < |neighbors| ==> IdOf(neighbors[h].src) in nodeids
    ensures bad.None? ==> forall n :: n in parents ==>
      Pointed(n.one, old(n.one), e, neighbors, |neighbors|, Get(n.src, fk))
  {
    var j := 0;
    while j < |neighbors|
      invariant 0 <= j <= |neighbors|
      invariant forall h :: 0 <= h < j ==> IdOf(neighbors[h].src) in nodeids
      invariant forall n :: n in parents ==> Pointed(n.one, old(n.one), e, neighbors, j, Get(n.src, fk))
    {
      var id := Get(neighbors[j].fields, Id);
      if id !in nodeids {
        return Some(id);
      }
      AttachGroup(e, nodeids[id], neighbors[j], parents);
      j := j + 1;
    }
    bad := None;
  }

  // ---------------------------------------------------------------- one-to-many

  /** The parents indexed by id: every parent under its own id, and nothing else. */
  ghost predicate Indexed(parents: set<Node>, byId: map<Value, Node>) {
    && (forall n :: n in parents ==> IdOf(n.src) in byId && byId[IdOf(n.src)] == n)
    && (forall v :: v in byId ==> byId[v] in parents && IdOf(byId[v].src) == v)
  }

  /** The first loop of a one-to-many or many-to-many load: index the parents and give each an
      empty edge. */
  method IndexById(e: Edge, nodes: seq<Node>) returns (ids: seq<Value>, byId: map<Value, Node>)
    requires Readable(nodes, Id) && DistinctKeys(nodes)
    modifies Elems(nodes)`many
    ensures forall v :: v in ids <==> v in byId
    ensures Indexed(Elems(nodes), byId)
    ensures forall n :: n in nodes ==> e in n.many && n.many[e] == [] && n.many - {e} == old(n.many) - {e}
  {
    ids, byId := [], map[];
    DistinctNodes(nodes);
    var i := 0;
    while i < |nodes|
      invariant 0 <= i <= |nodes|
      invariant forall v :: v in ids <==> v in byId
      invariant Indexed(Elems(nodes[..i]), byId)
      invariant forall h :: 0 <= h < i ==> nodes[h].many == old(nodes[h].many)[e := []]
      invariant forall h :: i <= h < |nodes| ==> nodes[h].many == old(nodes[h].many)
    {
      var id := Get(nodes[i].fields, Id);
      TakeSnoc(nodes, i);
      ids := ids + [id];
      byId := byId[id := nodes[i]];
      nodes[i].many := nodes[i].many[e := []];
      i := i + 1;
    }
    assert nodes[..i] == nodes;
  }

  /** assign(node, n) for one parent. */
  method Append(e: Edge, node: Node, k: Node, ghost parents: set<Node>)
    requires node in parents && forall n :: n in parents ==> e in n.many
    modifies parents`many
    ensures forall n :: n in parents ==>
      n.many == if n == node then old(n.many)[e := old(n.many)[e] + [k]] else old(n.many)
  {
    node.many := node.many[e := node.many[e] + [k]];
  }

  /** Appending to one entry of the edge map extends that entry and no other. */
  lemma Appended(now: map<Edge, seq<Node>>, prev: map<Edge, seq<Node>>, before: map<Edge, seq<Node>>, e: Edge,
                 list: seq<Node>, more: seq<Node>, k: Node, hit: bool)
    requires prev == before[e := list]
    requires now == if hit then prev[e := prev[e] + [k]] else prev
    requires more == list + if hit then [k] else []
    ensures now == before[e := more]
  {
    UpdateTwice(before, e, list, more);
    assert list + [] == list;
  }

  /** The entities whose foreign key the index resolves to parent `n`. */
  ghost function Behind(neighbors: seq<Node>, fk: Column, byId: map<Value, Node>, n: Node): set<Node> {
    set k | k in neighbors && Get(k.src, fk) in byId && byId[Get(k.src, fk)] == n
  }

  lemma BehindStep(neighbors: seq<Node>, j: nat, fk: Column, byId: map<Value, Node>, n: Node)
    requires j < |neighbors| && Get(neighbors[j].src, fk) in byId
    ensures KeepTo(neighbors, j + 1, Behind(neighbors, fk, byId, n))
            == KeepTo(neighbors, j, Behind(neighbors, fk, byId, n))
               + if byId[Get(neighbors[j].src, fk)] == n then [neighbors[j]] else []
  {
  }

  lemma AppendedBehind(e: Edge, fk: Column, byId: map<Value, Node>, neighbors: seq<Node>, j: nat, n: Node, node: Node,
                       before: map<Edge, seq<Node>>, prev: map<Edge, seq<Node>>, now: map<Edge, seq<Node>>)
    requires j < |neighbors| && Get(neighbors[j].src, fk) in byId && byId[Get(neighbors[j].src, fk)] == node
    requires prev == before[e := KeepTo(neighbors, j, Behind(neighbors, fk, byId, n))]
    requires now == if n == node then prev[e := prev[e] + [neighbors[j]]] else prev
    ensures now == before[e := KeepTo(neighbors, j + 1, Behind(neighbors, fk, byId, n))]
  {
    var behind := Behind(neighbors, fk, byId, n);
    BehindStep(neighbors, j, fk, byId, n);
    Appended(now, prev, before, e, KeepTo(neighbors, j, behind), KeepTo(neighbors, j + 1, behind),
             neighbors[j], n == node);
  }

  /** The last loop of a one-to-many load: every parent's slice is the order-preserving filter of
      the returned entities by their foreign key. It fails, and only then, on a foreign key that
      is the id of no parent. */
  method AttachMany(e: Edge, fk: Column, ghost parents: set<Node>, byId: map<Value, Node>, neighbors: seq<Node>)
    returns (bad: Option<Value>)
    requires Readable(neighbors, fk)
    requires forall v :: v in byId ==> byId[v] in parents
    requires forall n :: n in parents ==> e in n.many && n.many[e] == []
    modifies parents`many
    ensures bad.None? <==> forall h :: 0 <= h < |neighbors| ==> Get(neighbors[h].src, fk) in byId
    ensures bad.None? ==> forall n :: n in parents ==>
      n.many == old(n.many)[e := Keep(neighbors, Behind(neighbors, fk, byId, n))]
  {
    hide Behind, KeepTo;
    forall n | n in parents ensures n.many == old(n.many)[e := KeepTo(neighbors, 0, Behind(neighbors, fk, byId, n))] {
      KeepNone(neighbors, Behind(neighbors, fk, byId, n));
    }
    var j := 0;
    while j < |neighbors|
      invariant 0 <= j <= |neighbors|
      invariant forall h :: 0 <= h < j ==> Get(neighbors[h].src, fk) in byId
      invariant forall n :: n in parents ==>
        n.many == old(n.many)[e := KeepTo(neighbors, j, Behind(neighbors, fk, byId, n))]
    {
      var id := Get(neighbors[j].fields, fk);
      assert neighbors[j] in neighbors && id == Get(neighbors[j].src, fk);
      if id !in byId {
        return Some(id);
      }
      var node := byId[id];
      ghost var before := map n | n in parents :: n.many;
      Append(e, node, neighbors[j], parents);
      forall n | n in parents
        ensures n.many == old(n.many)[e := KeepTo(neighbors, j + 1, Behind(neighbors, fk, byId, n))]
      {
        AppendedBehind(e, fk, byId, neighbors, j, n, node, old(n.many), before[n], n.many);
      }
      j := j + 1;
    }
    bad := None;
  }

  // ---------------------------------------------------------------- many-to-many

  /** assign(kn, n) for every parent in a Go map of parents, in whatever order it is ranged. */
  method AttachSet(e: Edge, group: set<Node>, k: Node, ghost parents: set<Node>)
    requires group <= parents
    requires forall n :: n in parents ==> e in n.many
    modifies parents`many
    ensures forall n :: n in parents ==>
      n.many == if n in group then old(n.many)[e := old(n.many)[e] + [k]] else old(n.many)
  {
    var todo := group;
    while todo != {}
      invariant todo <= group
      invariant forall n :: n in parents ==>
        n.many == if n in group && n !in todo then old(n.many)[e := old(n.many)[e] + [k]] else old(n.many)
      decreases todo
    {
      var kn :| kn in todo;
      kn.many := kn.many[e := kn.many[e] + [k]];
      todo := todo - {kn};
    }
  }

  /** The entities that `nids` links to parent `n`. */
  ghost function Through(neighbors: seq<Node>, nids: map<Value, set<Node>>, n: Node): set<Node> {
    set k | k in neighbors && IdOf(k.src) in nids && n in nids[IdOf(k.src)]
  }

  lemma ThroughStep(neighbors: seq<Node>, j: nat, nids: map<Value, set<Node>>, n: Node)
    requires j < |neighbors| && IdOf(neighbors[j].src) in nids
    ensures KeepTo(neighbors, j + 1, Through(neighbors, nids, n))
            == KeepTo(neighbors, j, Through(neighbors, nids, n))
               + if n in nids[IdOf(neighbors[j].src)] then [neighbors[j]] else []
  {
  }

  /** The last loop of a many-to-many load: every parent's slice is the order-preserving filter
      of the returned entities by the join, whatever order the inner maps are ranged in. It
      fails, and only then, on an entity the row stream never announced. */
  method AttachThrough(e: Edge, ghost parents: set<Node>, nids: map<Value, set<Node>>, neighbors: seq<Node>)
    returns (bad: Option<Value>)
    requires Readable(neighbors, Id)
    requires forall v :: v in nids ==> nids[v] <= parents
    requires forall n :: n in parents ==> e in n.many && n.many[e] == []
    modifies parents`many
    ensures bad.None? <==> forall h :: 0 <= h < |neighbors| ==> IdOf(neighbors[h].src) in nids
    ensures bad.None? ==> forall n :: n in parents ==>
      n.many == old(n.many)[e := Keep(neighbors, Through(neighbors, nids, n))]
  {
    var j := 0;
    while j < |neighbors|
      invariant 0 <= j <= |neighbors|
      invariant forall h :: 0 <= h < j ==> IdOf(neighbors[h].src) in nids
      invariant forall n :: n in parents ==>
        n.many == old(n.many)[e := KeepTo(neighbors, j, Through(neighbors, nids, n))]
    {
      var id := Get(neighbors[j].fields, Id);
      assert neighbors[j] in neighbors && id == IdOf(neighbors[j].src);
      if id !in nids {
        return Some(id);
      }
      ghost var before := map n | n in parents :: n.many;
      AttachSet(e, nids[id], neighbors[j], parents);
      forall n | n in parents
        ensures n.many == old(n.many)[e := KeepTo(neighbors, j + 1, Through(neighbors, nids, n))]
      {
        ghost var through := Through(neighbors, nids, n);
        ThroughStep(neighbors, j, nids, n);
        Appended(n.many, before[n], old(n.many), e, KeepTo(neighbors, j, through), KeepTo(neighbors, j + 1, through),
                 neighbors[j], n in nids[id]);
      }
      j := j + 1;
    }
    bad := None;
  }
}
