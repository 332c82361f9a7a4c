/** What eager loading means: the object graph on the heap against nested-loop joins. */
module EagerTheorems {
  import opened Seqs
  import opened Schema
  import opened Store
  import opened Builder
  import opened Loading
  import opened EagerLoad
  import opened Traversal

  // ---------------------------------------------------------------- the graph a caller sees

  /** What an edge holds is part of the batch that was loaded for it. */
  lemma AttachedKids(db: Db, e: Edge, n: Node, kids: seq<Node>)
    requires NodeLoaded(db, e, n, kids)
    ensures forall k :: k in Attached(n, e) ==> k in kids && Related(db, e, n.src, k.src)
  {
  }

  lemma KidLoaded(db: Db, g: Load, plan: Plan, fields: seq<Column>, e: Edge)
    requires Loaded(db, g, plan, fields) && e in plan.withs && g.nodes != []
    ensures e in g.kids && Objects(g.kids[e]) <= Objects(g)
    ensures EdgeLoaded(db, e, g.nodes, g.kids[e].nodes, plan.withs[e])
    ensures Loaded(db, g.kids[e], plan.withs[e], EdgeFields(e, plan.withs[e].fields))
    ensures forall n, k :: n in g.nodes && k in Attached(n, e) ==> k in g.kids[e].nodes
  {
    forall n, k | n in g.nodes && k in Attached(n, e) ensures k in g.kids[e].nodes {
      AttachedKids(db, e, n, g.kids[e].nodes);
    }
  }

  /** The graph reached from a loaded struct by following its edge pointers, as deep as edges were
      requested. */
  ghost function View(db: Db, g: Load, plan: Plan, fields: seq<Column>, n: Node): Graph
    requires Loaded(db, g, plan, fields) && n in g.nodes
    reads Objects(g)
    decreases plan, 1
  {
    Graph(n.fields, map e | e in plan.withs :: EdgeView(db, g, plan, fields, n, e))
  }

  ghost function EdgeView(db: Db, g: Load, plan: Plan, fields: seq<Column>, n: Node, e: Edge): set<Graph>
    requires Loaded(db, g, plan, fields) && n in g.nodes && e in plan.withs
    reads Objects(g)
    decreases plan, 0
  {
    KidLoaded(db, g, plan, fields, e);
    set k | k in Attached(n, e) :: View(db, g.kids[e], plan.withs[e], EdgeFields(e, plan.withs[e].fields), k)
  }

  /** The rows the next level is loaded for. */
  ghost function NextRows(db: Db, e: Edge, rows: set<Row>, child: Plan): set<Row> {
    set c | c in Table(db, e.Target()) && Passes(child.preds, c) && exists p :: p in rows && Related(db, e, p, c)
  }

  /** No LIMIT or OFFSET of an edge query, at any level, cuts its batch. No query is issued for an
      empty batch. */
  ghost predicate NothingCut(db: Db, plan: Plan, rows: set<Row>)
    decreases plan
  {
    rows == {} ||
    forall e :: e in plan.withs ==>
      BatchFits(db, e, rows, plan.withs[e]) && NothingCut(db, plan.withs[e], NextRows(db, e, rows, plan.withs[e]))
  }

  ghost function NaiveEdge(db: Db, plan: Plan, e: Edge, r: Row): set<Graph>
    requires e in plan.withs
  {
    set c | c in Naive(db, e, r, plan.withs[e]) :: NaiveGraph(db, plan.withs[e], EdgeFields(e, plan.withs[e].fields), c)
  }

  lemma NaiveMembers(db: Db, e: Edge, r: Row, child: Plan)
    ensures forall c :: c in Naive(db, e, r, child)
              <==> c in Table(db, e.Target()) && Passes(child.preds, c) && Related(db, e, r, c)
  {
    KeepMembers(Table(db, e.Target()),
                set c | c in Table(db, e.Target()) && Passes(child.preds, c) && Related(db, e, r, c));
  }

  ghost predicate AllNaive(db: Db, g: Load, plan: Plan, fields: seq<Column>)
    requires Loaded(db, g, plan, fields)
    reads Objects(g)
  {
    forall n :: n in g.nodes ==> View(db, g, plan, fields, n) == NaiveGraph(db, plan, fields, n.src)
  }

  /** A node that lacks nothing holds exactly the rows of its naive join. */
  lemma HeldRows(db: Db, e: Edge, nodes: seq<Node>, n: Node, kids: seq<Node>, child: Plan)
    requires n in nodes && Complete(db, e, n, child)
    requires Answering(db, e, nodes, kids, child) && NodeLoaded(db, e, n, kids)
    ensures forall k :: k in Attached(n, e) ==> k in kids && k.src in Naive(db, e, n.src, child)
    ensures forall c :: c in Naive(db, e, n.src, child) ==> exists k :: k in Attached(n, e) && k.src == c
  {
    AttachedKids(db, e, n, kids);
    NaiveMembers(db, e, n.src, child);
  }

  /** A loaded edge of one node shows the naive join of its row, if it lacks nothing and the level
      below is naive. */
  lemma EdgeIsNaive(db: Db, g: Load, plan: Plan, fields: seq<Column>, n: Node, e: Edge)
    requires Loaded(db, g, plan, fields) && n in g.nodes && e in plan.withs
    requires Complete(db, e, n, plan.withs[e])
    requires e in g.kids && Loaded(db, g.kids[e], plan.withs[e], EdgeFields(e, plan.withs[e].fields))
    requires AllNaive(db, g.kids[e], plan.withs[e], EdgeFields(e, plan.withs[e].fields))
    ensures EdgeView(db, g, plan, fields, n, e) == NaiveEdge(db, plan, e, n.src)
  {
    hide View, NaiveGraph, Loaded, Naive, Complete, Attached, EdgeFields, NodeLoaded, Answering, Exact;
    var child := plan.withs[e];
    KidLoaded(db, g, plan, fields, e);
    HeldRows(db, e, g.nodes, n, g.kids[e].nodes, child);
    forall c | c in Naive(db, e, n.src, child)
      ensures NaiveGraph(db, child, EdgeFields(e, child.fields), c) in EdgeView(db, g, plan, fields, n, e)
    {
      var k :| k in Attached(n, e) && k.src == c;
    }
  }

  lemma NextBatch(db: Db, e: Edge, nodes: seq<Node>, kids: seq<Node>, child: Plan)
    requires Answering(db, e, nodes, kids, child) && BatchFits(db, e, Srcs(nodes), child)
    ensures Srcs(kids) == NextRows(db, e, Srcs(nodes), child)
  {
    forall c | c in Srcs(kids) ensures c in NextRows(db, e, Srcs(nodes), child) {
      var k :| k in kids && k.src == c;
      assert Wanted(db, e, nodes, child, c);
      var n :| n in nodes && Related(db, e, n.src, c);
      assert n.src in Srcs(nodes);
    }
    forall c | c in NextRows(db, e, Srcs(nodes), child) ensures c in Srcs(kids) {
      var p :| p in Srcs(nodes) && Related(db, e, p, c);
      var n :| n in nodes && n.src == p;
      assert Wanted(db, e, nodes, child, c);
    }
  }

  lemma EdgesMakeGraph(db: Db, g: Load, plan: Plan, fields: seq<Column>, n: Node)
    requires Loaded(db, g, plan, fields) && n in g.nodes
    requires forall e :: e in plan.withs ==> EdgeView(db, g, plan, fields, n, e) == NaiveEdge(db, plan, e, n.src)
    ensures View(db, g, plan, fields, n) == NaiveGraph(db, plan, fields, n.src)
  {
    hide Loaded, View, NaiveGraph, EdgeView, NaiveEdge, ColumnSet, Decode;
    ViewParts(db, g, plan, fields, n);
    NaiveParts(db, plan, fields, n.src);
    assert View(db, g, plan, fields, n).edges == NaiveGraph(db, plan, fields, n.src).edges;
  }

  lemma ViewParts(db: Db, g: Load, plan: Plan, fields: seq<Column>, n: Node)
    requires Loaded(db, g, plan, fields) && n in g.nodes
    ensures var t := View(db, g, plan, fields, n);
            && t.fields == Decode(n.src, ColumnSet(plan.typ, fields, plan.withs.Keys))
            && t.edges.Keys == plan.withs.Keys
            && forall e :: e in plan.withs ==> t.edges[e] == EdgeView(db, g, plan, fields, n, e)
  {
    hide EdgeView, EdgeLoaded, OnlyEdges, DistinctKeys, ColumnSet, Decode, Objects, KidObjects;
  }

  lemma NaiveParts(db: Db, plan: Plan, fields: seq<Column>, r: Row)
    ensures var t := NaiveGraph(db, plan, fields, r);
            && t.fields == Decode(r, ColumnSet(plan.typ, fields, plan.withs.Keys)) && t.edges.Keys == plan.withs.Keys
            && forall e :: e in plan.withs ==> t.edges[e] == NaiveEdge(db, plan, e, r)
  {
  }

  /** If nothing is cut, every loaded struct shows exactly the graph of nested-loop joins. */
  lemma {:induction false} UncutIsNaive(db: Db, g: Load, plan: Plan, fields: seq<Column>)
    requires Loaded(db, g, plan, fields) && NothingCut(db, plan, Srcs(g.nodes))
    ensures AllNaive(db, g, plan, fields)
    decreases plan
  {
    hide View, EdgeView, NaiveGraph, NaiveEdge;
    forall n | n in g.nodes ensures View(db, g, plan, fields, n) == NaiveGraph(db, plan, fields, n.src) {
      forall e | e in plan.withs ensures EdgeView(db, g, plan, fields, n, e) == NaiveEdge(db, plan, e, n.src) {
        UncutEdge(db, g, plan, fields, n, e);
        UncutIsNaive(db, g.kids[e], plan.withs[e], EdgeFields(e, plan.withs[e].fields));
        EdgeIsNaive(db, g, plan, fields, n, e);
      }
      EdgesMakeGraph(db, g, plan, fields, n);
    }
  }

  lemma UncutEdge(db: Db, g: Load, plan: Plan, fields: seq<Column>, n: Node, e: Edge)
    requires Loaded(db, g, plan, fields) && NothingCut(db, plan, Srcs(g.nodes)) && n in g.nodes && e in plan.withs
    ensures e in g.kids && Loaded(db, g.kids[e], plan.withs[e], EdgeFields(e, plan.withs[e].fields))
    ensures Complete(db, e, n, plan.withs[e]) && NothingCut(db, plan.withs[e], Srcs(g.kids[e].nodes))
  {
    KidLoaded(db, g, plan, fields, e);
    assert n.src in Srcs(g.nodes);
    NextBatch(db, e, g.nodes, g.kids[e].nodes, plan.withs[e]);
  }

  /** The id alone tells which row a graph was built from. */
  lemma SameRoot(db: Db, g: Load, plan: Plan, fields: seq<Column>, k: Node, c: Row)
    requires WellFormed(db) && Loaded(db, g, plan, fields) && k in g.nodes && c in Table(db, plan.typ)
    requires View(db, g, plan, fields, k) == NaiveGraph(db, plan, fields, c)
    ensures k.src == c
  {
    hide View, NaiveGraph;
    ViewParts(db, g, plan, fields, k);
    NaiveParts(db, plan, fields, c);
    var cols := ColumnSet(plan.typ, fields, plan.withs.Keys);
    IdSelected(plan.typ, fields, plan.withs.Keys);
    assert Decode(k.src, cols) == Decode(c, cols);
    assert Decode(k.src, cols)[Id] == IdOf(k.src) && Decode(c, cols)[Id] == IdOf(c);
    SameId(Table(db, plan.typ), k.src, c);
  }

  /** A struct that shows the naive graph lacks nothing. */
  lemma NaiveComplete(db: Db, g: Load, plan: Plan, fields: seq<Column>, n: Node, e: Edge)
    requires WellFormed(db) && WellTyped(plan) && Loaded(db, g, plan, fields) && n in g.nodes && e in plan.withs
    requires View(db, g, plan, fields, n) == NaiveGraph(db, plan, fields, n.src)
    ensures Complete(db, e, n, plan.withs[e])
  {
    hide Loaded, EdgeLoaded, View, NaiveGraph, Naive, Attached, EdgeFields, ColumnSet, Decode;
    var child := plan.withs[e];
    var below := EdgeFields(e, child.fields);
    KidLoaded(db, g, plan, fields, e);
    ViewParts(db, g, plan, fields, n);
    NaiveParts(db, plan, fields, n.src);
    NaiveMembers(db, e, n.src, child);
    forall c | c in Table(db, e.Target()) && Passes(child.preds, c) && Related(db, e, n.src, c)
      ensures exists k :: k in Attached(n, e) && k.src == c
    {
      assert NaiveGraph(db, child, below, c) in EdgeView(db, g, plan, fields, n, e);
      var k :| k in Attached(n, e) && View(db, g.kids[e], child, below, k) == NaiveGraph(db, child, below, c);
      SameRoot(db, g.kids[e], child, below, k, c);
    }
  }

  /** Below a naive batch whose edge `e` lacks nothing, the next batch is naive too. */
  lemma KidsNaive(db: Db, g: Load, plan: Plan, fields: seq<Column>, e: Edge)
    requires WellFormed(db) && WellTyped(plan) && Loaded(db, g, plan, fields) && g.nodes != [] && e in plan.withs
    requires AllNaive(db, g, plan, fields) && forall n :: n in g.nodes ==> Complete(db, e, n, plan.withs[e])
    ensures e in g.kids && Loaded(db, g.kids[e], plan.withs[e], EdgeFields(e, plan.withs[e].fields))
    ensures AllNaive(db, g.kids[e], plan.withs[e], EdgeFields(e, plan.withs[e].fields))
  {
    hide Loaded, View, EdgeView, NaiveGraph, NaiveEdge, EdgeFields, Complete;
    var child := plan.withs[e];
    var below := EdgeFields(e, child.fields);
    KidLoaded(db, g, plan, fields, e);
    forall k | k in g.kids[e].nodes
      ensures View(db, g.kids[e], child, below, k) == NaiveGraph(db, child, below, k.src)
    {
      var n := KidAttached(db, g, plan, fields, e, k);
      KidNaive(db, g, plan, fields, n, e, k);
    }
  }

  lemma KidAttached(db: Db, g: Load, plan: Plan, fields: seq<Column>, e: Edge, k: Node) returns (n: Node)
    requires Loaded(db, g, plan, fields) && g.nodes != [] && e in plan.withs && e in g.kids && k in g.kids[e].nodes
    requires forall n :: n in g.nodes ==> Complete(db, e, n, plan.withs[e])
    ensures n in g.nodes && k in Attached(n, e)
  {
    KidLoaded(db, g, plan, fields, e);
    assert Wanted(db, e, g.nodes, plan.withs[e], k.src);
    n :| n in g.nodes && Related(db, e, n.src, k.src);
    var l :| l in Attached(n, e) && l.src == k.src;
    DistinctNodes(g.kids[e].nodes);
    assert l == k;
  }

  lemma KidNaive(db: Db, g: Load, plan: Plan, fields: seq<Column>, n: Node, e: Edge, k: Node)
    requires WellFormed(db) && WellTyped(plan) && Loaded(db, g, plan, fields) && n in g.nodes && e in plan.withs
    requires View(db, g, plan, fields, n) == NaiveGraph(db, plan, fields, n.src)
    requires e in g.kids && Loaded(db, g.kids[e], plan.withs[e], EdgeFields(e, plan.withs[e].fields))
    requires k in g.kids[e].nodes && k in Attached(n, e)
    ensures var below := EdgeFields(e, plan.withs[e].fields);
            View(db, g.kids[e], plan.withs[e], below, k) == NaiveGraph(db, plan.withs[e], below, k.src)
  {
    hide Loaded, EdgeLoaded, View, NaiveGraph, Naive, Attached, EdgeFields, ColumnSet, Decode;
    var child := plan.withs[e];
    var below := EdgeFields(e, child.fields);
    ViewParts(db, g, plan, fields, n);
    NaiveParts(db, plan, fields, n.src);
    NaiveMembers(db, e, n.src, child);
    assert View(db, g.kids[e], child, below, k) in EdgeView(db, g, plan, fields, n, e);
    var c :| c in Naive(db, e, n.src, child) && NaiveGraph(db, child, below, c) == View(db, g.kids[e], child, below, k);
    SameRoot(db, g.kids[e], child, below, k, c);
  }

  lemma NaiveFits(db: Db, g: Load, plan: Plan, fields: seq<Column>, e: Edge)
    requires WellFormed(db) && WellTyped(plan) && UniqueLinks(db, e) && g.nodes != [] && e in plan.withs
    requires Loaded(db, g, plan, fields) && AllNaive(db, g, plan, fields)
    ensures BatchFits(db, e, Srcs(g.nodes), plan.withs[e])
    ensures e in g.kids && Loaded(db, g.kids[e], plan.withs[e], EdgeFields(e, plan.withs[e].fields))
    ensures AllNaive(db, g.kids[e], plan.withs[e], EdgeFields(e, plan.withs[e].fields))
    ensures Srcs(g.kids[e].nodes) == NextRows(db, e, Srcs(g.nodes), plan.withs[e])
  {
    hide Loaded, View, NaiveGraph, UniqueLinks, BatchFits, NextRows, Answering, EdgeFields, Complete;
    KidLoaded(db, g, plan, fields, e);
    forall n | n in g.nodes ensures Complete(db, e, n, plan.withs[e]) {
      NaiveComplete(db, g, plan, fields, n, e);
    }
    KidsNaive(db, g, plan, fields, e);
    NextBatch(db, e, g.nodes, g.kids[e].nodes, plan.withs[e]);
  }

  /** Conversely, a cut at any level shows: with the unique indexes of the schema, the loaded
      graphs are the naive ones only if nothing was cut. */
  lemma {:induction false} NaiveIsUncut(db: Db, g: Load, plan: Plan, fields: seq<Column>)
    requires WellFormed(db) && WellTyped(plan) && (forall e: Edge :: UniqueLinks(db, e))
    requires Loaded(db, g, plan, fields) && AllNaive(db, g, plan, fields)
    ensures NothingCut(db, plan, Srcs(g.nodes))
    decreases plan
  {
    if g.nodes == [] {
    } else {
      hide Loaded, AllNaive, UniqueLinks, BatchFits, NextRows, EdgeFields;
      forall e | e in plan.withs
        ensures BatchFits(db, e, Srcs(g.nodes), plan.withs[e])
                && NothingCut(db, plan.withs[e], NextRows(db, e, Srcs(g.nodes), plan.withs[e]))
      {
        NaiveFits(db, g, plan, fields, e);
        NaiveIsUncut(db, g.kids[e], plan.withs[e], EdgeFields(e, plan.withs[e].fields));
      }
    }
  }

  /** The main theorem: eager loading shows every returned struct as the graph of nested-loop
      joins of its row, at every level, exactly if no edge query's LIMIT or OFFSET cut a batch. */
  lemma EagerIsNaive(db: Db, g: Load, plan: Plan, fields: seq<Column>)
    requires WellFormed(db) && WellTyped(plan) && (forall e: Edge :: UniqueLinks(db, e))
    requires Loaded(db, g, plan, fields)
    ensures AllNaive(db, g, plan, fields) <==> NothingCut(db, plan, Srcs(g.nodes))
  {
    if AllNaive(db, g, plan, fields) {
      NaiveIsUncut(db, g, plan, fields);
    }
    if NothingCut(db, plan, Srcs(g.nodes)) {
      UncutIsNaive(db, g, plan, fields);
    }
  }

  ghost function Views(db: Db, g: Load, plan: Plan): set<Graph>
    requires Loaded(db, g, plan, plan.fields)
    reads Objects(g)
  {
    set n | n in g.nodes :: View(db, g, plan, plan.fields, n)
  }

  /** What All returns, when no window cuts anything: the naive graphs of exactly the candidate rows
      that pass, whatever order and shape the answers of the store had. */
  lemma ForestIsNaive(db: Db, from: seq<Row>, g: Load, plan: Plan)
    requires Loaded(db, g, plan, plan.fields) && Answered(db, from, plan, g.nodes)
    requires Fits(AnswerSize(db, from, plan), plan.limit, plan.offset)
    requires NothingCut(db, plan, set r | r in from && Passes(plan.preds, r))
    ensures Views(db, g, plan) == set r | r in from && Passes(plan.preds, r) :: NaiveGraph(db, plan, plan.fields, r)
  {
    hide View, NaiveGraph, Fits;
    assert Srcs(g.nodes) == set r | r in from && Passes(plan.preds, r);
    UncutIsNaive(db, g, plan, plan.fields);
    forall r | r in from && Passes(plan.preds, r) ensures NaiveGraph(db, plan, plan.fields, r) in Views(db, g, plan) {
      var n :| n in g.nodes && n.src == r;
    }
  }

  /** The rows a query is about: those its path reaches that pass its predicates. */
  ghost function Subject(reached: set<Row>, plan: Plan): set<Row> {
    set r | r in reached && Passes(plan.preds, r)
  }

  /** End to end: executing a builder without limits on its path or root, whose edge queries cut
      nothing, leaves on the heap exactly the nested-loop graphs of the rows it is about. */
  method AllIsNaive(db: Db, conn: Connection, q: Query) returns (r: Result<seq<Node>>, ghost g: Load)
    requires WellFormed(db) && Runnable(q) && PathFilters(q)
    modifies q.Repr, conn`asked
    ensures conn.Heard(old(conn.asked), Queries(old(q.tree)), r == Err(StoreFailed))
    ensures r.Ok? ==> g.nodes == r.value && Loaded(db, g, old(q.tree), old(q.tree).fields)
    ensures r.Ok? && old(PathUncut(q)) && !Limited(old(q.tree).limit) && Skipped(old(q.tree).offset) == 0
            && NothingCut(db, old(q.tree), Subject(old(Reach(db, q)), old(q.tree)))
      ==> Views(db, g, old(q.tree))
          == set c | c in Subject(old(Reach(db, q)), old(q.tree)) :: NaiveGraph(db, old(q.tree), old(q.tree).fields, c)
  {
    hide Loaded, Answered, View, NaiveGraph, NothingCut, Reach;
    ghost var from;
    r, g, from := All(db, conn, q);
    ghost var plan := old(q.tree);
    if r.Ok? && old(PathUncut(q)) && !Limited(plan.limit) && Skipped(plan.offset) == 0
       && NothingCut(db, plan, Subject(old(Reach(db, q)), plan)) {
      assert Subject(old(Reach(db, q)), plan) == set c | c in from && Passes(plan.preds, c);
      ForestIsNaive(db, from, g, plan);
    }
  }

  // ---------------------------------------------------------------- every level

  /** The batch reached by following the edges of `path`. */
  ghost predicate IsPath(g: Load, plan: Plan, path: seq<Edge>) {
    || path == []
    || (path[0] in g.kids && path[0] in plan.withs && IsPath(g.kids[path[0]], plan.withs[path[0]], path[1..]))
  }

  ghost function BatchAt(g: Load, plan: Plan, path: seq<Edge>): Load
    requires IsPath(g, plan, path)
  {
    if path == [] then g else BatchAt(g.kids[path[0]], plan.withs[path[0]], path[1..])
  }

  /** A child id loaded by one edge query is one heap object, however many parents share it. */
  ghost predicate SharedKids(g: Load)
    reads g.nodes
  {
    forall e, a, b :: e in g.kids && a in g.nodes && b in g.nodes ==> SameObjects(Attached(a, e), Attached(b, e))
  }

  ghost predicate SameObjects(a: set<Node>, b: set<Node>) {
    forall k, l :: k in a && l in b && IdOf(k.src) == IdOf(l.src) ==> k == l
  }

  lemma LoadedBatch(db: Db, g: Load, plan: Plan, fields: seq<Column>)
    requires Loaded(db, g, plan, fields)
    ensures DistinctKeys(g.nodes) && g.kids.Keys <= plan.withs.Keys && (g.kids.Keys != {} ==> g.nodes != [])
  {
  }

  /** Distinctness and sharing at every level: all batches anywhere below hold structs with
      distinct ids, and their edges share. */
  lemma {:induction false} SharedBelow(db: Db, g: Load, plan: Plan, fields: seq<Column>, path: seq<Edge>)
    requires Loaded(db, g, plan, fields) && IsPath(g, plan, path)
    ensures DistinctKeys(BatchAt(g, plan, path).nodes) && SharedKids(BatchAt(g, plan, path))
    decreases path
  {
    hide Loaded, EdgeLoaded, Attached, DistinctKeys;
    LoadedBatch(db, g, plan, fields);
    if path == [] {
      forall e, a, b | e in g.kids && a in g.nodes && b in g.nodes ensures SameObjects(Attached(a, e), Attached(b, e)) {
        KidLoaded(db, g, plan, fields, e);
        LoadedBatch(db, g.kids[e], plan.withs[e], EdgeFields(e, plan.withs[e].fields));
        DistinctNodes(g.kids[e].nodes);
      }
    } else {
      KidLoaded(db, g, plan, fields, path[0]);
      SharedBelow(db, g.kids[path[0]], plan.withs[path[0]], EdgeFields(path[0], plan.withs[path[0]].fields), path[1..]);
    }
  }

  /** The rows of a list of structs, in order. */
  ghost function RowsOf(list: seq<Node>): seq<Row> {
    seq(|list|, i requires 0 <= i < |list| => list[i].src)
  }

  lemma RowsMembers(list: seq<Node>)
    ensures Elems(RowsOf(list)) == Srcs(list)
    ensures DistinctKeys(list) ==> Distinct(RowsOf(list))
  {
    var rows := RowsOf(list);
    forall r | r in Srcs(list) ensures r in rows {
      var i :| 0 <= i < |list| && list[i].src == r;
      assert rows[i] == r;
    }
    forall r | r in rows ensures r in Srcs(list) {
      var i :| 0 <= i < |rows| && rows[i] == r;
      assert list[i] in list;
    }
  }

  /** A to-many edge that lacks nothing is a list without repetitions of exactly the naive join,
      in the order the batch came in, even if the join table repeats a link. */
  lemma ListIsNaive(db: Db, e: Edge, nodes: seq<Node>, n: Node, kids: seq<Node>, child: Plan)
    requires WellFormed(db) && EdgeLoaded(db, e, nodes, kids, child) && DistinctKeys(kids)
    requires n in nodes && !e.Rel().M2O? && Complete(db, e, n, child)
    ensures e in n.many && DistinctKeys(n.many[e]) && n.many[e] == Keep(kids, Elems(n.many[e]))
    ensures Srcs(n.many[e]) == Elems(Naive(db, e, n.src, child))
    ensures |n.many[e]| == |Naive(db, e, n.src, child)|
  {
    hide Naive, Complete, Answering, Exact, Distinct;
    var list := n.many[e];
    DistinctNodes(kids);
    KeepDistinct(kids, |kids|, Elems(list));
    HeldRows(db, e, nodes, n, kids, child);
    assert Srcs(list) == Elems(Naive(db, e, n.src, child));
    RowsMembers(list);
    DistinctSize(RowsOf(list));
    NaiveDistinct(db, e, n.src, child);
    DistinctSize(Naive(db, e, n.src, child));
  }

  lemma NaiveDistinct(db: Db, e: Edge, r: Row, child: Plan)
    requires WellFormed(db)
    ensures Distinct(Naive(db, e, r, child))
  {
    TableCandidates(db, e.Target());
    KeepDistinct(Table(db, e.Target()), |Table(db, e.Target())|,
                 set c | c in Table(db, e.Target()) && Passes(child.preds, c) && Related(db, e, r, c));
  }
}
