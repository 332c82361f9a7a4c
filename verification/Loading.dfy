/** Loaded entities on the heap, and what it means for a batch of them to be fully loaded. */
module Loading {
  import opened Seqs
  import opened Schema
  import opened Store

  /** An entity struct: its decoded fields and its Edges. A to-one edge is a pointer (absent:
      nil), a to-many edge a slice. Fields and `loadedTypes` are written once, when the row is
      scanned; loading only ever writes the edges. `src` is the table row that was scanned. */
  class Node {
    const typ: EntityType
    const fields: Row
    const loadedTypes: set<Edge>
    ghost const src: Row
    var one: map<Edge, Node>
    var many: map<Edge, seq<Node>>

    constructor (typ: EntityType, wanted: set<Edge>, fields: Row, ghost src: Row)
      ensures this.typ == typ && this.fields == fields && this.src == src && loadedTypes == wanted
      ensures one == map[] && many == map[]
    {
      this.typ, this.fields, this.src, loadedTypes := typ, fields, src, wanted;
      one, many := map[], map[];
    }
  }

  /** Column `c` of the structs holds what the rows hold: it was selected and is not NULL. */
  ghost predicate Readable(nodes: seq<Node>, c: Column) {
    forall n :: n in nodes ==> Get(n.fields, c) == Get(n.src, c)
  }

  /** Two structs of one batch never decode the same primary key. */
  ghost predicate DistinctKeys(nodes: seq<Node>) {
    forall i, j :: 0 <= i < j < |nodes| ==> IdOf(nodes[i].src) != IdOf(nodes[j].src)
  }

  lemma DistinctNodes(nodes: seq<Node>)
    requires DistinctKeys(nodes)
    ensures Distinct(nodes)
    ensures forall a, b :: a in nodes && b in nodes && IdOf(a.src) == IdOf(b.src) ==> a == b
  {
  }

  /** The structs are scanned from rows of their table, hold exactly the selected columns, and
      fill no edge that was not requested. */
  ghost predicate Scanned(db: Db, nodes: seq<Node>, typ: EntityType, fields: seq<Column>, wanted: set<Edge>) {
    forall n :: n in nodes ==>
      && n.typ == typ
      && n.src in Table(db, typ)
      && n.fields == Decode(n.src, ColumnSet(typ, fields, wanted))
      && n.loadedTypes == wanted
  }

  ghost predicate OnlyEdges(nodes: seq<Node>, filled: set<Edge>)
    reads nodes
  {
    forall n :: n in nodes ==>
      && (forall e :: e in n.one ==> e in filled && e.Rel().M2O?)
      && (forall e :: e in n.many <==> e in filled && !e.Rel().M2O?)
  }

  /** Edge `e` of the batch `nodes`, loaded by one query `child` that returned `kids`: every kid
      passes the child's predicates and is on the edge of some node; every node holds kids on
      its edge, in the order the query returned them; and which rows on the edge are missing is
      exactly a matter of LIMIT and OFFSET. */
  ghost predicate EdgeLoaded(db: Db, e: Edge, nodes: seq<Node>, kids: seq<Node>, child: Plan)
    reads nodes
  {
    && Answering(db, e, nodes, kids, child)
    && (forall n :: n in nodes ==> NodeLoaded(db, e, n, kids))
    && Exact(db, e, nodes, child)
  }

  /** The rows a batch was scanned from. */
  ghost function Srcs(nodes: seq<Node>): set<Row> {
    set n | n in nodes :: n.src
  }

  /** Row `c` is on edge `e` of one of the nodes. */
  ghost predicate OnEdge(db: Db, e: Edge, nodes: seq<Node>, c: Row) {
    exists n :: n in nodes && Related(db, e, n.src, c)
  }

  ghost predicate Wanted(db: Db, e: Edge, nodes: seq<Node>, child: Plan, c: Row) {
    c in Table(db, e.Target()) && Passes(child.preds, c) && OnEdge(db, e, nodes, c)
  }

  /** The batch an edge query returned: only rows some node wants; all of them if LIMIT and OFFSET
      cut nothing; and through a foreign key, not all of them otherwise. */
  ghost predicate Answering(db: Db, e: Edge, nodes: seq<Node>, kids: seq<Node>, child: Plan) {
    && (forall k :: k in kids ==> Wanted(db, e, nodes, child, k.src))
    && (BatchFits(db, e, Srcs(nodes), child) ==> forall c :: Wanted(db, e, nodes, child, c) ==> c in Srcs(kids))
    && (!BatchFits(db, e, Srcs(nodes), child) && !e.Rel().M2M? ==>
          exists c :: Wanted(db, e, nodes, child, c) && c !in Srcs(kids))
  }

  ghost predicate NodeLoaded(db: Db, e: Edge, n: Node, kids: seq<Node>)
    reads n
  {
    if e.Rel().M2O? then OneLoaded(db, e, n.src, n.one, kids)
    else e in n.many && ManyLoaded(db, e, n.src, n.many[e], kids)
  }

  /** A to-one edge points at the kid it is related to, and is nil if there is none. */
  ghost predicate OneLoaded(db: Db, e: Edge, src: Row, one: map<Edge, Node>, kids: seq<Node>) {
    && (e in one ==> one[e] in kids)
    && (forall k :: k in kids ==> (Related(db, e, src, k.src) <==> e in one && one[e] == k))
  }

  /** A to-many edge is a filter of the kids: related ones only, and all of them if the edge is a
      foreign key. */
  ghost predicate ManyLoaded(db: Db, e: Edge, src: Row, list: seq<Node>, kids: seq<Node>) {
    && list == Keep(kids, Elems(list))
    && (forall k :: k in list ==> k in kids && Related(db, e, src, k.src))
    && (e.Rel().O2M? ==> forall k :: k in kids && Related(db, e, src, k.src) ==> k in list)
  }

  /** What a loaded edge of one node holds. */
  ghost function Attached(n: Node, e: Edge): set<Node>
    reads n
  {
    if e.Rel().M2O? then if e in n.one then {n.one[e]} else {}
    else if e in n.many then Elems(n.many[e]) else {}
  }

  /** No row on the edge that passes the predicates is missing. */
  ghost predicate Complete(db: Db, e: Edge, n: Node, child: Plan)
    reads n
  {
    forall c :: c in Table(db, e.Target()) && Passes(child.preds, c) && Related(db, e, n.src, c)
      ==> exists k :: k in Attached(n, e) && k.src == c
  }

  /** Every node of the batch holds its whole edge exactly if LIMIT and OFFSET cut nothing. */
  ghost predicate Exact(db: Db, e: Edge, nodes: seq<Node>, child: Plan)
    reads nodes
  {
    && (BatchFits(db, e, Srcs(nodes), child) ==> forall n :: n in nodes ==> Complete(db, e, n, child))
    && (!BatchFits(db, e, Srcs(nodes), child) && UniqueLinks(db, e) ==>
          exists n :: n in nodes && !Complete(db, e, n, child))
  }

  /** Through a foreign key, a node lacks exactly what the batch lacks. */
  lemma ForeignKeyExact(db: Db, e: Edge, nodes: seq<Node>, kids: seq<Node>, child: Plan)
    requires !e.Rel().M2M? && Answering(db, e, nodes, kids, child)
    requires forall n :: n in nodes ==> NodeLoaded(db, e, n, kids)
    ensures Exact(db, e, nodes, child)
  {
    if BatchFits(db, e, Srcs(nodes), child) {
      forall n | n in nodes ensures Complete(db, e, n, child) {
        NodeComplete(db, e, nodes, n, kids, child);
      }
    } else {
      var c :| Wanted(db, e, nodes, child, c) && c !in Srcs(kids);
      var n :| n in nodes && Related(db, e, n.src, c);
      forall k | k in Attached(n, e) ensures k.src != c {
        assert k in kids;
      }
    }
  }

  lemma NodeComplete(db: Db, e: Edge, nodes: seq<Node>, n: Node, kids: seq<Node>, child: Plan)
    requires !e.Rel().M2M? && n in nodes && NodeLoaded(db, e, n, kids)
    requires forall c :: Wanted(db, e, nodes, child, c) ==> c in Srcs(kids)
    ensures Complete(db, e, n, child)
  {
    forall c | c in Table(db, e.Target()) && Passes(child.preds, c) && Related(db, e, n.src, c)
      ensures exists k :: k in Attached(n, e) && k.src == c
    {
      assert Wanted(db, e, nodes, child, c);
      var k :| k in kids && k.src == c;
      assert k in Attached(n, e);
    }
  }

  /** Everything one call to All produced: the batch it returned and, per requested edge, the
      single batch that was stitched into it. */
  datatype Load = Load(nodes: seq<Node>, kids: map<Edge, Load>)

  ghost function Objects(g: Load): set<Node>
    decreases g, 1
  {
    Elems(g.nodes) + KidObjects(g)
  }

  ghost function KidObjects(g: Load): set<Node>
    decreases g, 0
  {
    set e, n | e in g.kids && n in Objects(g.kids[e]) :: n
  }

  /** The whole tree below a batch is loaded as `plan` asks. `fields` are the fields selected
      for this batch. No edge is queried for an empty batch. */
  ghost predicate Loaded(db: Db, g: Load, plan: Plan, fields: seq<Column>)
    reads Objects(g)
    decreases plan
  {
    && Scanned(db, g.nodes, plan.typ, fields, plan.withs.Keys)
    && DistinctKeys(g.nodes)
    && OnlyEdges(g.nodes, plan.withs.Keys)
    && g.kids.Keys == (if g.nodes == [] then {} else plan.withs.Keys)
    && forall e :: e in g.kids ==>
         assert Objects(g.kids[e]) <= KidObjects(g);
         && EdgeLoaded(db, e, g.nodes, g.kids[e].nodes, plan.withs[e])
         && Loaded(db, g.kids[e], plan.withs[e], EdgeFields(e, plan.withs[e].fields))
  }

  /** The invalid field a load runs into: of the builder itself, which is then never run, or of the
      builder of some edge, in schema order. The edges of an empty batch are not looked at. */
  ghost function Blame(g: Load, plan: Plan): Option<Column>
    decreases plan, 1, 0
  {
    if FirstBad(plan.typ, plan.fields).Some? then FirstBad(plan.typ, plan.fields)
    else if g.nodes == [] then None
    else BlameEdges(g, plan, EdgesOf(plan.typ))
  }

  ghost function BlameEdges(g: Load, plan: Plan, edges: seq<Edge>): Option<Column>
    decreases plan, 0, |edges|
  {
    if edges == [] then None
    else if edges[0] in g.kids && edges[0] in plan.withs && Blame(g.kids[edges[0]], plan.withs[edges[0]]).Some?
    then Blame(g.kids[edges[0]], plan.withs[edges[0]])
    else BlameEdges(g, plan, edges[1..])
  }

  /** The batches of a load, whether it was finished or broken off, answer the queries of their edges. */
  ghost predicate Backed(db: Db, g: Load, plan: Plan)
    decreases plan
  {
    forall e :: e in g.kids ==>
      && e in plan.withs && Backed(db, g.kids[e], plan.withs[e])
      && (g.kids[e].nodes != [] ==> Answering(db, e, g.nodes, g.kids[e].nodes, plan.withs[e]))
  }

  /** Only the fields of the builder itself and the builders of its edges matter. */
  lemma SameBlame(g: Load, a: Plan, b: Plan)
    requires a.typ == b.typ && a.withs == b.withs && FirstBad(a.typ, a.fields) == FirstBad(b.typ, b.fields)
    ensures Blame(g, a) == Blame(g, b)
  {
    SameBlameEdges(g, a, b, EdgesOf(a.typ));
  }

  lemma {:induction false} SameBlameEdges(g: Load, a: Plan, b: Plan, edges: seq<Edge>)
    requires a.withs == b.withs
    ensures BlameEdges(g, a, edges) == BlameEdges(g, b, edges)
  {
    if edges == [] {
    } else {
      SameBlameEdges(g, a, b, edges[1..]);
    }
  }

  lemma SameBacked(db: Db, g: Load, a: Plan, b: Plan)
    requires a.withs == b.withs
    ensures Backed(db, g, a) == Backed(db, g, b)
  {
  }

  /** A tree whose fields are all valid is never blamed. */
  lemma {:induction false} ValidUnblamed(g: Load, plan: Plan)
    requires AllFieldsValid(plan)
    ensures Blame(g, plan).None?
    decreases plan, 1, 0
  {
    ValidUnblamedEdges(g, plan, EdgesOf(plan.typ));
  }

  lemma {:induction false} ValidUnblamedEdges(g: Load, plan: Plan, edges: seq<Edge>)
    requires AllFieldsValid(plan)
    ensures BlameEdges(g, plan, edges).None?
    decreases plan, 0, |edges|
  {
    if edges == [] {
    } else {
      if edges[0] in g.kids && edges[0] in plan.withs {
        ValidUnblamed(g.kids[edges[0]], plan.withs[edges[0]]);
      }
      ValidUnblamedEdges(g, plan, edges[1..]);
    }
  }

  /** Edges that were not loaded are not blamed. */
  lemma {:induction false} UnloadedUnblamed(g: Load, plan: Plan, edges: seq<Edge>)
    requires forall e :: e in edges ==> e !in g.kids
    ensures BlameEdges(g, plan, edges).None?
  {
    if edges == [] {
    } else {
      assert forall e :: e in edges[1..] ==> e in edges;
      UnloadedUnblamed(g, plan, edges[1..]);
    }
  }

  lemma BackedMore(db: Db, g: Load, plan: Plan, e: Edge, kid: Load)
    requires Backed(db, g, plan) && e in plan.withs && Backed(db, kid, plan.withs[e])
    requires kid.nodes != [] ==> Answering(db, e, g.nodes, kid.nodes, plan.withs[e])
    ensures Backed(db, Load(g.nodes, g.kids[e := kid]), plan)
  {
    hide Answering;
  }

  /** Loaded batches stay loaded while none of their objects change. */
  twostate lemma StillLoaded(new db: Db, g: Load, new plan: Plan, new fields: seq<Column>)
    requires forall n :: n in Objects(g) ==> old(allocated(n))
    requires unchanged(Objects(g))
    ensures Loaded(db, g, plan, fields) == old(Loaded(db, g, plan, fields))
  {
  }

  // ---------------------------------------------------------------- loading one edge after another

  /** The edges loaded so far are loaded as `plan` asks. */
  ghost predicate EdgesLoaded(db: Db, g: Load, plan: Plan)
    reads g.nodes, KidObjects(g)
  {
    forall e :: e in g.kids && e in plan.withs ==>
      assert Objects(g.kids[e]) <= KidObjects(g);
      && EdgeLoaded(db, e, g.nodes, g.kids[e].nodes, plan.withs[e])
      && Loaded(db, g.kids[e], plan.withs[e], EdgeFields(e, plan.withs[e].fields))
  }

  /** Edge `f` of the struct is as it was. */
  twostate predicate Same(n: Node, new f: Edge)
    reads n
  {
    && (f in n.one <==> f in old(n.one)) && (f in n.one ==> n.one[f] == old(n.one)[f])
    && (f in n.many <==> f in old(n.many)) && (f in n.many ==> n.many[f] == old(n.many)[f])
  }

  twostate lemma NodeKept(new db: Db, new f: Edge, g: Load, new n: Node, new child: Plan)
    requires f in g.kids && n in g.nodes && Same(n, f)
    ensures NodeLoaded(db, f, n, g.kids[f].nodes) == old(NodeLoaded(db, f, n, g.kids[f].nodes))
    ensures Complete(db, f, n, child) == old(Complete(db, f, n, child))
  {
    hide ManyLoaded, Related, Passes;
    assert Attached(n, f) == old(Attached(n, f));
  }

  twostate lemma EdgeKept(new db: Db, new f: Edge, g: Load, new child: Plan)
    requires f in g.kids
    requires forall n :: n in g.nodes ==> Same(n, f)
    ensures EdgeLoaded(db, f, g.nodes, g.kids[f].nodes, child)
            == old(EdgeLoaded(db, f, g.nodes, g.kids[f].nodes, child))
  {
    hide NodeLoaded, Complete, Answering, BatchFits, UniqueLinks, Same;
    forall n | n in g.nodes
      ensures NodeLoaded(db, f, n, g.kids[f].nodes) == old(NodeLoaded(db, f, n, g.kids[f].nodes))
      ensures Complete(db, f, n, child) == old(Complete(db, f, n, child))
    {
      NodeKept(db, f, g, n, child);
    }
  }

  /** The edges loaded so far stay loaded when another one is loaded. */
  twostate lemma EdgesKept(new db: Db, g: Load, new plan: Plan)
    requires forall n :: n in KidObjects(g) ==> old(allocated(n))
    requires unchanged(KidObjects(g))
    requires forall n, f :: n in g.nodes && f in g.kids ==> Same(n, f)
    ensures old(EdgesLoaded(db, g, plan)) ==> EdgesLoaded(db, g, plan)
  {
    forall f | f in g.kids && f in plan.withs
      ensures EdgeLoaded(db, f, g.nodes, g.kids[f].nodes, plan.withs[f])
              == old(EdgeLoaded(db, f, g.nodes, g.kids[f].nodes, plan.withs[f]))
      ensures Loaded(db, g.kids[f], plan.withs[f], EdgeFields(f, plan.withs[f].fields))
              == old(Loaded(db, g.kids[f], plan.withs[f], EdgeFields(f, plan.withs[f].fields)))
    {
      assert Objects(g.kids[f]) <= KidObjects(g);
      EdgeKept(db, f, g, plan.withs[f]);
      StillLoaded(db, g.kids[f], plan.withs[f], EdgeFields(f, plan.withs[f].fields));
    }
  }

  lemma KidObjectsAdd(g: Load, e: Edge, kid: Load)
    requires e !in g.kids
    ensures KidObjects(Load(g.nodes, g.kids[e := kid])) == KidObjects(g) + Objects(kid)
  {
    var more := g.kids[e := kid];
    forall n | n in Objects(kid) ensures n in KidObjects(Load(g.nodes, more)) {
      assert e in more && more[e] == kid;
    }
    forall f, n | f in g.kids && n in Objects(g.kids[f]) ensures n in KidObjects(Load(g.nodes, more)) {
      assert f in more && more[f] == g.kids[f];
    }
  }

  lemma EdgesExtended(db: Db, g: Load, plan: Plan, e: Edge, kid: Load)
    requires e !in g.kids && e in plan.withs && EdgesLoaded(db, g, plan)
    requires EdgeLoaded(db, e, g.nodes, kid.nodes, plan.withs[e])
    requires Loaded(db, kid, plan.withs[e], EdgeFields(e, plan.withs[e].fields))
    ensures EdgesLoaded(db, Load(g.nodes, g.kids[e := kid]), plan)
  {
  }

  lemma FilledMany(db: Db, e: Edge, nodes: seq<Node>, kids: seq<Node>, child: Plan)
    requires EdgeLoaded(db, e, nodes, kids, child)
    ensures forall n :: n in nodes && !e.Rel().M2O? ==> e in n.many
  {
  }

  /** A load of edge `e` leaves the other edges as they were. */
  twostate lemma OthersSame(g: Load, new e: Edge)
    requires forall n :: n in g.nodes ==> n.one - {e} == old(n.one) - {e} && n.many - {e} == old(n.many) - {e}
    ensures forall n, f :: n in g.nodes && f != e ==> Same(n, f)
  {
    forall n, f | n in g.nodes && f != e ensures Same(n, f) {
      assert f in n.one <==> f in n.one - {e};
      assert f in old(n.one) <==> f in old(n.one) - {e};
      assert f in n.many <==> f in n.many - {e};
      assert f in old(n.many) <==> f in old(n.many) - {e};
    }
  }

  twostate lemma OnlyEdgesExtended(g: Load, new filled: set<Edge>, new e: Edge)
    requires e !in filled
    requires forall n, f :: n in g.nodes && f != e ==> Same(n, f)
    requires forall n :: n in g.nodes ==>
      if e.Rel().M2O? then n.many == old(n.many) else n.one == old(n.one) && e in n.many
    ensures old(OnlyEdges(g.nodes, filled)) ==> OnlyEdges(g.nodes, filled + {e})
  {
    if old(OnlyEdges(g.nodes, filled)) {
      forall n, f | n in g.nodes && f in n.one ensures f in filled + {e} && f.Rel().M2O? {
        assert f != e ==> Same(n, f);
      }
      forall n, f: Edge | n in g.nodes ensures f in n.many <==> f in filled + {e} && !f.Rel().M2O? {
        assert f != e ==> Same(n, f);
      }
    }
  }
}
