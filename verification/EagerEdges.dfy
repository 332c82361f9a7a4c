/** Properties that relate several eager loads: inverse edges, join edges against their through
    edges, field selection, and a limit on an edge query. */
module EagerEdges {
  import opened Seqs
  import opened Schema
  import opened Store
  import opened Loading
  import opened EagerLoad
  import opened EagerTheorems
  import opened Migration

  /** A loaded edge that lacks nothing holds a row exactly if the row is on it and passes. */
  lemma HeldExactly(db: Db, e: Edge, nodes: seq<Node>, n: Node, kids: seq<Node>, child: Plan, c: Row)
    requires EdgeLoaded(db, e, nodes, kids, child) && n in nodes && Complete(db, e, n, child)
    ensures (exists k :: k in Attached(n, e) && k.src == c)
            <==> c in Table(db, e.Target()) && Passes(child.preds, c) && Related(db, e, n.src, c)
  {
    HeldRows(db, e, nodes, n, kids, child);
    NaiveMembers(db, e, n.src, child);
  }

  // ---------------------------------------------------------------- foreign keys

  /** In terms of the tables alone: a loaded edge holds exactly the rows that pass and that foreign keys
      connect to its node. */
  lemma HeldByReference(db: Db, g: Load, plan: Plan, fields: seq<Column>, n: Node, e: Edge, c: Row)
    requires Loaded(db, g, plan, fields) && NothingCut(db, plan, Srcs(g.nodes)) && n in g.nodes && e in plan.withs
    ensures (exists k :: k in Attached(n, e) && k.src == c)
            <==> c in Table(db, e.Target()) && Passes(plan.withs[e].preds, c) && Refers(db, e, n.src, c)
  {
    hide Loaded, NothingCut, Related, Refers, EdgeLoaded, Attached;
    UncutEdge(db, g, plan, fields, n, e);
    KidLoaded(db, g, plan, fields, e);
    HeldExactly(db, e, g.nodes, n, g.kids[e].nodes, plan.withs[e], c);
    RelatedRefers(db, e, n.src, c);
  }

  /** For instance: users with their systems, by the rows of user_systems. */
  lemma SystemsOfUser(db: Db, g: Load, plan: Plan, fields: seq<Column>, n: Node, s: Row)
    requires plan.typ == User && Loaded(db, g, plan, fields) && NothingCut(db, plan, Srcs(g.nodes)) && n in g.nodes
    requires User_Systems in plan.withs
    ensures User_Systems in n.many
    ensures (exists k :: k in n.many[User_Systems] && k.src == s)
            <==> s in Table(db, System) && Passes(plan.withs[User_Systems].preds, s)
                 && exists j ::
                      j in Table(db, UserSystem) && Get(j, UserId) == IdOf(n.src) && Get(j, SystemId) == IdOf(s)
  {
    hide Loaded, NothingCut, EdgeLoaded;
    RequestedEdges(db, g, plan, fields, n, User_Systems);
    UncutEdge(db, g, plan, fields, n, User_Systems);
    KidLoaded(db, g, plan, fields, User_Systems);
    HeldExactly(db, User_Systems, g.nodes, n, g.kids[User_Systems].nodes, plan.withs[User_Systems], s);
  }

  // ---------------------------------------------------------------- selected fields

  /** A struct holds the values of the selected fields, of all fields without a selection, and always its
      id; a NULL leaves a field out. */
  lemma FieldsLoaded(db: Db, g: Load, plan: Plan, fields: seq<Column>, n: Node, c: Column)
    requires Loaded(db, g, plan, fields) && n in g.nodes
    requires c == Id || (fields == [] && Declared(plan.typ, c).Some?) || c in fields
    ensures Get(n.fields, c) == Get(n.src, c)
  {
    ColumnsMatch(plan.typ, c);
    assert c == Id ==> Columns(plan.typ)[0] == Id;
  }

  // ---------------------------------------------------------------- inverse edges

  /** Two edges over the same foreign key or join table, read from opposite ends. */
  predicate AreInverse(e: Edge, f: Edge) {
    && e.Owner() == f.Target() && e.Target() == f.Owner()
    && match e.Rel()
       case M2O(fk) => f.Rel() == O2M(fk)
       case O2M(fk) => f.Rel() == M2O(fk)
       case M2M(t, outCol, inCol) => f.Rel() == M2M(t, inCol, outCol)
  }

  /** The inverse pairs of the schema. */
  lemma InversePairs()
    ensures AreInverse(User_Systems, System_Users) && AreInverse(UserSystem_Groups, SystemGroup_Users)
    ensures AreInverse(System_Inodes, Inode_System) && AreInverse(System_Objects, Object_System)
    ensures AreInverse(User_UserSystems, UserSystem_User) && AreInverse(UserSystem_UserGroups, UserGroup_UserSystem)
    ensures forall e, f :: AreInverse(e, f) ==> AreInverse(f, e)
  {
  }

  lemma InverseRelated(db: Db, e: Edge, f: Edge, p: Row, c: Row)
    requires AreInverse(e, f)
    ensures Related(db, e, p, c) <==> Related(db, f, c, p)
  {
    if e.Rel().M2M? {
      var t, o, i := e.Rel().table, e.Rel().outCol, e.Rel().inCol;
      if Related(db, e, p, c) {
        var j :| j in Table(db, t) && Get(j, o) == IdOf(p) && Get(j, i) == IdOf(c);
        assert Get(j, i) == IdOf(c) && Get(j, o) == IdOf(p);
      }
      if Related(db, f, c, p) {
        var j :| j in Table(db, t) && Get(j, i) == IdOf(c) && Get(j, o) == IdOf(p);
        assert Get(j, o) == IdOf(p) && Get(j, i) == IdOf(c);
      }
    }
  }

  /** Two independent loads over the same store, from opposite ends of an edge: `s` is in
      `u.Edges` exactly if `u` is in `s.Edges`, up to each query's own predicates. */
  lemma InverseSymmetry(db: Db, e: Edge, f: Edge, us: seq<Node>, eKids: seq<Node>, eChild: Plan,
                        ss: seq<Node>, fKids: seq<Node>, fChild: Plan, u: Node, s: Node)
    requires AreInverse(e, f)
    requires EdgeLoaded(db, e, us, eKids, eChild) && BatchFits(db, e, Srcs(us), eChild) && u in us
    requires EdgeLoaded(db, f, ss, fKids, fChild) && BatchFits(db, f, Srcs(ss), fChild) && s in ss
    requires u.src in Table(db, e.Owner()) && s.src in Table(db, f.Owner())
    ensures (exists k :: k in Attached(u, e) && k.src == s.src) && Passes(fChild.preds, u.src)
            <==> (exists k :: k in Attached(s, f) && k.src == u.src) && Passes(eChild.preds, s.src)
  {
    hide Attached, Related, Complete;
    assert Complete(db, e, u, eChild) && Complete(db, f, s, fChild);
    HeldExactly(db, e, us, u, eKids, eChild, s.src);
    HeldExactly(db, f, ss, s, fKids, fChild, u.src);
    InverseRelated(db, e, f, u.src, s.src);
  }

  // ---------------------------------------------------------------- through edges

  /** `e` joins over a table that `f` lists and whose entities `h` leads on from. */
  predicate IsThrough(e: Edge, f: Edge, h: Edge) {
    && e.Rel().M2M? && f.Owner() == e.Owner() && f.Target() == e.Rel().table == h.Owner() && h.Target() == e.Target()
    && f.Rel() == O2M(e.Rel().outCol) && h.Rel() == M2O(e.Rel().inCol)
  }

  lemma ThroughPairs()
    ensures IsThrough(User_Systems, User_UserSystems, UserSystem_System)
    ensures IsThrough(UserSystem_Groups, UserSystem_UserGroups, UserGroup_SystemGroup)
  {
  }

  /** The rows reached from a list of join entities by following edge `h`. */
  ghost function Reached(joins: seq<Node>, n: nat, h: Edge): seq<Row>
    requires n <= |joins|
    reads joins
  {
    if n == 0 then [] else Reached(joins, n - 1, h) + if h in joins[n - 1].one then [joins[n - 1].one[h].src] else []
  }

  lemma {:induction false} ReachedMembers(joins: seq<Node>, n: nat, h: Edge)
    requires n <= |joins|
    ensures forall c :: c in Reached(joins, n, h)
              <==> exists i :: 0 <= i < n && h in joins[i].one && joins[i].one[h].src == c
  {
    if n == 0 {
    } else {
      ReachedMembers(joins, n - 1, h);
    }
  }

  /** Three loads: the many-to-many edge, the join entities, and the many-to-one edge on from
      those. */
  ghost predicate ThroughLoaded(db: Db, e: Edge, f: Edge, h: Edge, nodes: seq<Node>, kids: seq<Node>, child: Plan,
                                joins: seq<Node>, joinPlan: Plan, ends: seq<Node>, endPlan: Plan)
    reads nodes, joins
  {
    && IsThrough(e, f, h)
    && EdgeLoaded(db, e, nodes, kids, child) && BatchFits(db, e, Srcs(nodes), child)
    && EdgeLoaded(db, f, nodes, joins, joinPlan) && BatchFits(db, f, Srcs(nodes), joinPlan) && joinPlan.preds == []
    && EdgeLoaded(db, h, joins, ends, endPlan) && BatchFits(db, h, Srcs(joins), endPlan) && endPlan.preds == child.preds
  }

  /** The rows a node reaches over the join entities are the rows its many-to-many edge holds. */
  lemma ThroughAgrees(db: Db, e: Edge, f: Edge, h: Edge, nodes: seq<Node>, kids: seq<Node>, child: Plan,
                      joins: seq<Node>, joinPlan: Plan, ends: seq<Node>, endPlan: Plan, n: Node)
    requires ThroughLoaded(db, e, f, h, nodes, kids, child, joins, joinPlan, ends, endPlan) && n in nodes
    ensures e in n.many && f in n.many
    ensures Srcs(n.many[e]) == Elems(Reached(n.many[f], |n.many[f]|, h))
  {
    var list := n.many[f];
    forall c ensures c in Srcs(n.many[e]) <==> c in Reached(list, |list|, h) {
      ThroughAgreesOn(db, e, f, h, nodes, kids, child, joins, joinPlan, ends, endPlan, n, c);
    }
  }

  lemma ThroughAgreesOn(db: Db, e: Edge, f: Edge, h: Edge, nodes: seq<Node>, kids: seq<Node>, child: Plan,
                        joins: seq<Node>, joinPlan: Plan, ends: seq<Node>, endPlan: Plan, n: Node, c: Row)
    requires ThroughLoaded(db, e, f, h, nodes, kids, child, joins, joinPlan, ends, endPlan) && n in nodes
    ensures e in n.many && f in n.many
    ensures c in Srcs(n.many[e]) <==> c in Reached(n.many[f], |n.many[f]|, h)
  {
    hide Reached, Complete, Answering, BatchFits;
    var list := n.many[f];
    assert Complete(db, e, n, child) && Complete(db, f, n, joinPlan);
    HeldExactly(db, e, nodes, n, kids, child, c);
    ReachedMembers(list, |list|, h);
    if c in Srcs(n.many[e]) {
      var k :| k in n.many[e] && k.src == c;
      assert k in Attached(n, e);
      var i := LinkReached(db, e, f, h, nodes, kids, child, joins, joinPlan, ends, endPlan, n, c);
    }
    if c in Reached(list, |list|, h) {
      var i :| 0 <= i < |list| && h in list[i].one && list[i].one[h].src == c;
      ReachedLinked(db, e, f, h, nodes, kids, child, joins, joinPlan, ends, endPlan, n, i);
      var k :| k in Attached(n, e) && k.src == c;
    }
  }

  /** A row on the many-to-many edge is reached over some join entity. */
  lemma LinkReached(db: Db, e: Edge, f: Edge, h: Edge, nodes: seq<Node>, kids: seq<Node>, child: Plan,
                    joins: seq<Node>, joinPlan: Plan, ends: seq<Node>, endPlan: Plan, n: Node, c: Row) returns (i: nat)
    requires ThroughLoaded(db, e, f, h, nodes, kids, child, joins, joinPlan, ends, endPlan) && n in nodes && f in n.many
    requires c in Table(db, e.Target()) && Passes(child.preds, c) && Related(db, e, n.src, c)
    ensures i < |n.many[f]| && h in n.many[f][i].one && n.many[f][i].one[h].src == c
  {
    hide Complete, Answering, BatchFits;
    assert Complete(db, f, n, joinPlan);
    AttachedKids(db, f, n, joins);
    var j := LinkOf(db, e, n.src, c);
    HeldExactly(db, f, nodes, n, joins, joinPlan, j);
    var m :| m in Attached(n, f) && m.src == j;
    LeadsTo(db, h, joins, m, ends, endPlan, c);
    i :| 0 <= i < |n.many[f]| && n.many[f][i] == m;
  }

  /** And what a join entity leads to is on the edge. */
  lemma ReachedLinked(db: Db, e: Edge, f: Edge, h: Edge, nodes: seq<Node>, kids: seq<Node>, child: Plan,
                      joins: seq<Node>, joinPlan: Plan, ends: seq<Node>, endPlan: Plan, n: Node, i: nat)
    requires ThroughLoaded(db, e, f, h, nodes, kids, child, joins, joinPlan, ends, endPlan) && n in nodes && f in n.many
    requires i < |n.many[f]| && h in n.many[f][i].one
    ensures var c := n.many[f][i].one[h].src;
            c in Table(db, e.Target()) && Passes(child.preds, c) && Related(db, e, n.src, c)
  {
    hide Complete, Answering, BatchFits;
    var m := n.many[f][i];
    var c := m.one[h].src;
    assert Complete(db, f, n, joinPlan) && m in Attached(n, f);
    AttachedKids(db, f, n, joins);
    LeadsTo(db, h, joins, m, ends, endPlan, c);
    HeldExactly(db, f, nodes, n, joins, joinPlan, m.src);
    Linked(db, e, n.src, c, m.src);
  }

  lemma LinkOf(db: Db, e: Edge, p: Row, c: Row) returns (j: Row)
    requires e.Rel().M2M? && Related(db, e, p, c)
    ensures j in Table(db, e.Rel().table) && Get(j, e.Rel().outCol) == IdOf(p) && Get(j, e.Rel().inCol) == IdOf(c)
  {
    j :| j in Table(db, e.Rel().table) && Get(j, e.Rel().outCol) == IdOf(p) && Get(j, e.Rel().inCol) == IdOf(c);
  }

  lemma Linked(db: Db, e: Edge, p: Row, c: Row, j: Row)
    requires e.Rel().M2M?
    requires j in Table(db, e.Rel().table) && Get(j, e.Rel().outCol) == IdOf(p) && Get(j, e.Rel().inCol) == IdOf(c)
    ensures Related(db, e, p, c)
  {
  }

  /** Where one join entity leads. */
  lemma LeadsTo(db: Db, h: Edge, joins: seq<Node>, m: Node, ends: seq<Node>, plan: Plan, c: Row)
    requires h.Rel().M2O? && EdgeLoaded(db, h, joins, ends, plan) && BatchFits(db, h, Srcs(joins), plan) && m in joins
    ensures h in m.one && m.one[h].src == c
            <==> c in Table(db, h.Target()) && Passes(plan.preds, c) && IdOf(c) == Get(m.src, h.Rel().fk)
  {
    HeldExactly(db, h, joins, m, ends, plan, c);
  }

  /** No two join rows of `p` lead to the same row the edge query passes. */
  ghost predicate SingleLinks(db: Db, e: Edge, p: Row, child: Plan)
    requires e.Rel().M2M?
  {
    forall j, k :: (JoinRowOf(db, e, p, j) && JoinRowOf(db, e, p, k)
                    && Get(j, e.Rel().inCol) == Get(k, e.Rel().inCol) && Leads(db, e, j, child)) ==> j == k
  }

  ghost predicate JoinRowOf(db: Db, e: Edge, p: Row, j: Row)
    requires e.Rel().M2M?
  {
    j in Table(db, e.Rel().table) && Get(j, e.Rel().outCol) == IdOf(p)
  }

  ghost predicate Leads(db: Db, e: Edge, j: Row, child: Plan)
    requires e.Rel().M2M?
  {
    exists c :: c in Table(db, e.Target()) && Passes(child.preds, c) && IdOf(c) == Get(j, e.Rel().inCol)
  }

  /** The unique index of the schema says so of every row. */
  lemma UniqueSingle(db: Db, e: Edge, p: Row, child: Plan)
    requires e.Rel().M2M? && UniqueLinks(db, e)
    ensures SingleLinks(db, e, p, child)
  {
    var table := Table(db, e.Rel().table);
    forall j, k | JoinRowOf(db, e, p, j) && JoinRowOf(db, e, p, k) && Get(j, e.Rel().inCol) == Get(k, e.Rel().inCol)
      ensures j == k
    {
      var a :| 0 <= a < |table| && table[a] == j;
      var b :| 0 <= b < |table| && table[b] == k;
    }
  }

  lemma {:induction false} ReachedDistinct(joins: seq<Node>, n: nat, h: Edge)
    requires n <= |joins|
    ensures Distinct(Reached(joins, n, h)) <==> forall a, b :: 0 <= a < b < n ==> Differ(joins[a], joins[b], h)
  {
    if n == 0 {
    } else {
      ReachedDistinct(joins, n - 1, h);
      ReachedMembers(joins, n - 1, h);
      var front := Reached(joins, n - 1, h);
      if h in joins[n - 1].one {
        var last := joins[n - 1].one[h].src;
        assert Reached(joins, n, h) == front + [last];
        SnocDistinct(front, last);
        assert last in front <==> exists a :: 0 <= a < n - 1 && !Differ(joins[a], joins[n - 1], h);
      } else {
        assert Reached(joins, n, h) == front;
      }
    }
  }

  ghost predicate Differ(a: Node, b: Node, h: Edge)
    reads a, b
  {
    h in a.one && h in b.one ==> a.one[h].src != b.one[h].src
  }

  /** As lists, the two ways of reading the edge agree exactly if no link is stored twice. */
  lemma ThroughCounts(db: Db, e: Edge, f: Edge, h: Edge, nodes: seq<Node>, kids: seq<Node>, child: Plan,
                      joins: seq<Node>, joinPlan: Plan, ends: seq<Node>, endPlan: Plan, n: Node)
    requires ThroughLoaded(db, e, f, h, nodes, kids, child, joins, joinPlan, ends, endPlan) && n in nodes
    requires WellFormed(db) && DistinctKeys(kids) && DistinctKeys(joins)
    ensures e in n.many && f in n.many
    ensures multiset(RowsOf(n.many[e])) == multiset(Reached(n.many[f], |n.many[f]|, h))
            <==> SingleLinks(db, e, n.src, child)
  {
    hide BatchFits, Reached, SingleLinks, Distinct;
    var list := n.many[f];
    ThroughAgrees(db, e, f, h, nodes, kids, child, joins, joinPlan, ends, endPlan, n);
    ListIsNaive(db, e, nodes, n, kids, child);
    ListIsNaive(db, f, nodes, n, joins, joinPlan);
    RowsMembers(n.many[e]);
    SameCounts(RowsOf(n.many[e]), Reached(list, |list|, h));
    ReachedDistinct(list, |list|, h);
    if SingleLinks(db, e, n.src, child) {
      forall a, b | 0 <= a < b < |list| ensures Differ(list[a], list[b], h) {
        SingleDiffer(db, e, f, h, nodes, kids, child, joins, joinPlan, ends, endPlan, n, a, b);
      }
    }
    if forall a, b :: 0 <= a < b < |list| ==> Differ(list[a], list[b], h) {
      DifferSingle(db, e, f, h, nodes, kids, child, joins, joinPlan, ends, endPlan, n);
    }
  }

  lemma SingleDiffer(db: Db, e: Edge, f: Edge, h: Edge, nodes: seq<Node>, kids: seq<Node>, child: Plan,
                     joins: seq<Node>, joinPlan: Plan, ends: seq<Node>, endPlan: Plan, n: Node, a: nat, b: nat)
    requires ThroughLoaded(db, e, f, h, nodes, kids, child, joins, joinPlan, ends, endPlan) && n in nodes
    requires SingleLinks(db, e, n.src, child) && f in n.many && DistinctKeys(n.many[f]) && a < b < |n.many[f]|
    ensures Differ(n.many[f][a], n.many[f][b], h)
  {
    hide Complete, Answering, BatchFits, SingleLinks;
    var x, y := n.many[f][a], n.many[f][b];
    assert x in Attached(n, f) && y in Attached(n, f) && IdOf(x.src) != IdOf(y.src);
    if !Differ(x, y, h) {
      AttachedKids(db, f, n, joins);
      assert Complete(db, f, n, joinPlan);
      HeldExactly(db, f, nodes, n, joins, joinPlan, x.src);
      HeldExactly(db, f, nodes, n, joins, joinPlan, y.src);
      LeadsTo(db, h, joins, x, ends, endPlan, x.one[h].src);
      LeadsTo(db, h, joins, y, ends, endPlan, x.one[h].src);
      SameLink(db, e, n.src, child, x.src, y.src, x.one[h].src);
    }
  }

  lemma SameLink(db: Db, e: Edge, p: Row, child: Plan, j: Row, k: Row, c: Row)
    requires e.Rel().M2M? && SingleLinks(db, e, p, child) && JoinRowOf(db, e, p, j) && JoinRowOf(db, e, p, k)
    requires c in Table(db, e.Target()) && Passes(child.preds, c)
    requires IdOf(c) == Get(j, e.Rel().inCol) == Get(k, e.Rel().inCol)
    ensures j == k
  {
    assert Leads(db, e, j, child);
  }

  lemma DifferSingle(db: Db, e: Edge, f: Edge, h: Edge, nodes: seq<Node>, kids: seq<Node>, child: Plan,
                     joins: seq<Node>, joinPlan: Plan, ends: seq<Node>, endPlan: Plan, n: Node)
    requires ThroughLoaded(db, e, f, h, nodes, kids, child, joins, joinPlan, ends, endPlan) && n in nodes
    requires f in n.many && forall a, b :: 0 <= a < b < |n.many[f]| ==> Differ(n.many[f][a], n.many[f][b], h)
    ensures SingleLinks(db, e, n.src, child)
  {
    hide Complete, Answering, BatchFits, Differ, Related, EdgeLoaded;
    forall j, k | JoinRowOf(db, e, n.src, j) && JoinRowOf(db, e, n.src, k)
      && Get(j, e.Rel().inCol) == Get(k, e.Rel().inCol) && Leads(db, e, j, child)
      ensures j == k
    {
      var c :| c in Table(db, e.Target()) && Passes(child.preds, c) && IdOf(c) == Get(j, e.Rel().inCol);
      var a := LeadsFrom(db, e, f, h, nodes, kids, child, joins, joinPlan, ends, endPlan, n, j, c);
      var b := LeadsFrom(db, e, f, h, nodes, kids, child, joins, joinPlan, ends, endPlan, n, k, c);
      if a < b {
        NotDiffer(n.many[f][a], n.many[f][b], h, c);
      } else if b < a {
        NotDiffer(n.many[f][b], n.many[f][a], h, c);
      }
    }
  }

  lemma NotDiffer(x: Node, y: Node, h: Edge, c: Row)
    requires h in x.one && h in y.one && x.one[h].src == c == y.one[h].src
    ensures !Differ(x, y, h)
  {
  }

  /** Where a join row of a node was loaded, and where its entity leads. */
  lemma LeadsFrom(db: Db, e: Edge, f: Edge, h: Edge, nodes: seq<Node>, kids: seq<Node>, child: Plan,
                  joins: seq<Node>, joinPlan: Plan, ends: seq<Node>, endPlan: Plan, n: Node, j: Row, c: Row)
    returns (a: nat)
    requires ThroughLoaded(db, e, f, h, nodes, kids, child, joins, joinPlan, ends, endPlan) && n in nodes && f in n.many
    requires JoinRowOf(db, e, n.src, j)
    requires c in Table(db, e.Target()) && Passes(child.preds, c) && IdOf(c) == Get(j, e.Rel().inCol)
    ensures a < |n.many[f]| && n.many[f][a].src == j && h in n.many[f][a].one && n.many[f][a].one[h].src == c
  {
    hide Complete, Answering, BatchFits;
    assert Complete(db, f, n, joinPlan);
    AttachedKids(db, f, n, joins);
    HeldExactly(db, f, nodes, n, joins, joinPlan, j);
    var x :| x in Attached(n, f) && x.src == j;
    LeadsTo(db, h, joins, x, ends, endPlan, c);
    a :| 0 <= a < |n.many[f]| && n.many[f][a] == x;
  }

  /** A plan that requests both the many-to-many edge `e` and, over the join entities of `f`, their
      onward edge `h`, for the same rows at the far end. */
  ghost predicate RequestsBoth(plan: Plan, e: Edge, f: Edge, h: Edge) {
    && IsThrough(e, f, h) && e in plan.withs && f in plan.withs && h in plan.withs[f].withs
    && plan.withs[f].preds == [] && plan.withs[f].withs[h].preds == plan.withs[e].preds
  }

  /** The batch of an edge; no edge is loaded for an empty batch. */
  ghost function KidsOf(g: Load, e: Edge): (kids: seq<Node>)
    ensures e in g.kids ==> kids == g.kids[e].nodes
  {
    if e in g.kids then g.kids[e].nodes else []
  }

  /** One load of such a plan is the three loads the comparison is about. */
  lemma LoadedThrough(db: Db, g: Load, plan: Plan, fields: seq<Column>, e: Edge, f: Edge, h: Edge)
    requires Loaded(db, g, plan, fields) && NothingCut(db, plan, Srcs(g.nodes)) && g.nodes != []
    requires RequestsBoth(plan, e, f, h)
    ensures e in g.kids && f in g.kids
    ensures ThroughLoaded(db, e, f, h, g.nodes, g.kids[e].nodes, plan.withs[e], g.kids[f].nodes, plan.withs[f],
                          KidsOf(g.kids[f], h), plan.withs[f].withs[h])
    ensures DistinctKeys(g.kids[e].nodes) && DistinctKeys(g.kids[f].nodes)
  {
    hide Loaded, EdgeLoaded, BatchFits, NothingCut, EdgeFields, DistinctKeys, Srcs, IsThrough, KidsOf;
    UncutBatch(db, g, plan, fields, e);
    UncutBatch(db, g, plan, fields, f);
    UncutOnward(db, g.kids[f], plan.withs[f], EdgeFields(f, plan.withs[f].fields), e, f, h);
  }

  /** The batch behind the join entities, which is empty if there are none. */
  lemma UncutOnward(db: Db, joins: Load, plan: Plan, fields: seq<Column>, e: Edge, f: Edge, h: Edge)
    requires Loaded(db, joins, plan, fields) && NothingCut(db, plan, Srcs(joins.nodes))
    requires IsThrough(e, f, h) && h in plan.withs
    ensures EdgeLoaded(db, h, joins.nodes, KidsOf(joins, h), plan.withs[h])
    ensures BatchFits(db, h, Srcs(joins.nodes), plan.withs[h])
  {
    hide Loaded, EdgeLoaded, BatchFits, NothingCut, EdgeFields, IsThrough;
    if joins.nodes != [] {
      UncutBatch(db, joins, plan, fields, h);
    } else {
      LoadedBatch(db, joins, plan, fields);
      ThroughKinds(e, f, h);
      NothingLeads(db, h, plan.withs[h]);
    }
  }

  lemma ThroughKinds(e: Edge, f: Edge, h: Edge)
    requires IsThrough(e, f, h)
    ensures h.Rel().M2O?
  {
  }

  lemma UncutBatch(db: Db, g: Load, plan: Plan, fields: seq<Column>, e: Edge)
    requires Loaded(db, g, plan, fields) && NothingCut(db, plan, Srcs(g.nodes)) && g.nodes != [] && e in plan.withs
    ensures e in g.kids && EdgeLoaded(db, e, g.nodes, g.kids[e].nodes, plan.withs[e])
    ensures Loaded(db, g.kids[e], plan.withs[e], EdgeFields(e, plan.withs[e].fields))
    ensures BatchFits(db, e, Srcs(g.nodes), plan.withs[e])
    ensures NothingCut(db, plan.withs[e], Srcs(g.kids[e].nodes)) && DistinctKeys(g.kids[e].nodes)
  {
    hide Loaded, EdgeLoaded, BatchFits, DistinctKeys;
    assert g.nodes[0] in g.nodes && g.nodes[0].src in Srcs(g.nodes);
    KidLoaded(db, g, plan, fields, e);
    UncutEdge(db, g, plan, fields, g.nodes[0], e);
    LoadedBatch(db, g.kids[e], plan.withs[e], EdgeFields(e, plan.withs[e].fields));
  }

  /** Without join entities there is nowhere to lead. */
  lemma NothingLeads(db: Db, h: Edge, plan: Plan)
    requires h.Rel().M2O?
    ensures EdgeLoaded(db, h, [], [], plan) && BatchFits(db, h, Srcs([]), plan)
  {
    assert Keys(h, Srcs([])) == {};
    NoKeys(db, h, |Table(db, h.Target())|, plan.preds);
    assert Fits(0, plan.limit, plan.offset);
  }

  /** So whatever All returns for such a plan, the two ways of reading the edge hold the same rows;
      and the same lists of rows, up to order, exactly for the nodes no link of which is stored
      twice. */
  lemma ThroughOfLoad(db: Db, g: Load, plan: Plan, fields: seq<Column>, e: Edge, f: Edge, h: Edge, n: Node)
    requires WellFormed(db) && Loaded(db, g, plan, fields) && NothingCut(db, plan, Srcs(g.nodes)) && n in g.nodes
    requires RequestsBoth(plan, e, f, h)
    ensures e in n.many && f in n.many
    ensures Srcs(n.many[e]) == Elems(Reached(n.many[f], |n.many[f]|, h))
    ensures multiset(RowsOf(n.many[e])) == multiset(Reached(n.many[f], |n.many[f]|, h))
            <==> SingleLinks(db, e, n.src, plan.withs[e])
  {
    hide Loaded, NothingCut, ThroughLoaded, Reached, SingleLinks, DistinctKeys;
    LoadedThrough(db, g, plan, fields, e, f, h);
    var kids, joins, ends := g.kids[e].nodes, g.kids[f].nodes, KidsOf(g.kids[f], h);
    ThroughAgrees(db, e, f, h, g.nodes, kids, plan.withs[e], joins, plan.withs[f], ends, plan.withs[f].withs[h], n);
    ThroughCounts(db, e, f, h, g.nodes, kids, plan.withs[e], joins, plan.withs[f], ends, plan.withs[f].withs[h], n);
  }

  // ---------------------------------------------------------------- field selection

  /** Two builders that ask for the same rows and edges, with any fields selected anywhere. */
  ghost predicate SameShape(a: Plan, b: Plan) {
    && a.typ == b.typ && a.preds == b.preds && a.withs.Keys == b.withs.Keys
    && forall e :: e in a.withs ==> SameShape(a.withs[e], b.withs[e])
  }

  /** The links of a graph: ids and edges, without the other fields. */
  ghost function LinksOf(t: Graph, plan: Plan): Graph
    decreases plan
  {
    Graph(map c | c == Id && c in t.fields :: t.fields[c],
          map e | e in plan.withs && e in t.edges :: set s | s in t.edges[e] :: LinksOf(s, plan.withs[e]))
  }

  ghost function RowLinks(db: Db, plan: Plan, r: Row): Graph
    decreases plan, 1
  {
    Graph(map[Id := IdOf(r)], map e | e in plan.withs :: EdgeRowLinks(db, plan, e, r))
  }

  ghost function EdgeRowLinks(db: Db, plan: Plan, e: Edge, r: Row): set<Graph>
    requires e in plan.withs
    decreases plan, 0
  {
    set c | c in Naive(db, e, r, plan.withs[e]) :: RowLinks(db, plan.withs[e], c)
  }

  lemma {:induction false} NaiveLinks(db: Db, plan: Plan, fields: seq<Column>, r: Row)
    requires WellFormed(db) && WellTyped(plan) && r in Table(db, plan.typ)
    ensures LinksOf(NaiveGraph(db, plan, fields, r), plan) == RowLinks(db, plan, r)
    decreases plan
  {
    hide NaiveGraph, Naive, ColumnSet;
    var t := NaiveGraph(db, plan, fields, r);
    NaiveParts(db, plan, fields, r);
    IdSelected(plan.typ, fields, plan.withs.Keys);
    assert LinksOf(t, plan).fields == map[Id := IdOf(r)];
    forall e | e in plan.withs ensures LinksOf(t, plan).edges[e] == EdgeRowLinks(db, plan, e, r) {
      NaiveMembers(db, e, r, plan.withs[e]);
      NaiveEdgeLinks(db, plan, e, r);
    }
    assert LinksOf(t, plan).edges == RowLinks(db, plan, r).edges;
  }

  lemma {:induction false} NaiveEdgeLinks(db: Db, plan: Plan, e: Edge, r: Row)
    requires WellFormed(db) && WellTyped(plan) && e in plan.withs
    requires forall c :: c in Naive(db, e, r, plan.withs[e]) ==> c in Table(db, e.Target())
    ensures (set s | s in NaiveEdge(db, plan, e, r) :: LinksOf(s, plan.withs[e])) == EdgeRowLinks(db, plan, e, r)
    decreases plan, 0
  {
    hide NaiveGraph, Naive, LinksOf, RowLinks;
    var child := plan.withs[e];
    var below := EdgeFields(e, child.fields);
    forall c | c in Naive(db, e, r, child)
      ensures LinksOf(NaiveGraph(db, child, below, c), child) == RowLinks(db, child, c)
    {
      NaiveLinks(db, child, below, c);
    }
    forall c | c in Naive(db, e, r, child)
      ensures RowLinks(db, child, c) in set s | s in NaiveEdge(db, plan, e, r) :: LinksOf(s, child)
    {
      assert NaiveGraph(db, child, below, c) in NaiveEdge(db, plan, e, r);
    }
  }

  lemma {:induction false} SameRowLinks(db: Db, a: Plan, b: Plan, r: Row)
    requires SameShape(a, b)
    ensures RowLinks(db, a, r) == RowLinks(db, b, r)
    decreases a
  {
    forall e | e in a.withs ensures EdgeRowLinks(db, a, e, r) == EdgeRowLinks(db, b, e, r) {
      assert Naive(db, e, r, a.withs[e]) == Naive(db, e, r, b.withs[e]);
      forall c | c in Naive(db, e, r, a.withs[e]) {
        SameRowLinks(db, a.withs[e], b.withs[e], c);
      }
    }
    assert RowLinks(db, a, r).edges == RowLinks(db, b, r).edges;
  }

  /** Field selection is invisible in the links: two loads of the same row that differ in what is
      selected, at any level, reach the same ids over the same edges. */
  lemma SelectKeepsLinks(db: Db, g: Load, a: Plan, aFields: seq<Column>, n: Node,
                         h: Load, b: Plan, bFields: seq<Column>, m: Node)
    requires WellFormed(db) && WellTyped(a) && WellTyped(b) && SameShape(a, b)
    requires Loaded(db, g, a, aFields) && NothingCut(db, a, Srcs(g.nodes)) && n in g.nodes
    requires Loaded(db, h, b, bFields) && NothingCut(db, b, Srcs(h.nodes)) && m in h.nodes
    requires n.src == m.src
    ensures LinksOf(View(db, g, a, aFields, n), a) == LinksOf(View(db, h, b, bFields, m), b)
  {
    hide View, NaiveGraph, LinksOf, RowLinks;
    UncutIsNaive(db, g, a, aFields);
    UncutIsNaive(db, h, b, bFields);
    NaiveLinks(db, a, aFields, n.src);
    NaiveLinks(db, b, bFields, m.src);
    SameRowLinks(db, a, b, n.src);
  }

  // ---------------------------------------------------------------- a limit on an edge query

  function SystemRow(id: string): Row {
    map[Id := StrV(id)]
  }

  function InodeRow(id: string, system: string): Row {
    map[Id := StrV(id), SystemId := StrV(system)]
  }

  /** Two systems with one inode each. */
  function TwoSystems(): Db {
    Db(map[System := [SystemRow("a"), SystemRow("b")], Inode := [InodeRow("x", "a"), InodeRow("y", "b")]])
  }

  /** Systems with their inodes, at most one inode. */
  function OneInode(): Plan {
    Plan(System, [], [], [], None, None, map[System_Inodes := Plan(Inode, [], [], [], Some(1), None, map[])])
  }

  /** The limit of an edge query is not a limit per parent: it never cuts the inodes of either
      system alone, but it cuts the batch of both. */
  lemma LimitIsPerBatch()
    ensures NothingCut(TwoSystems(), OneInode(), {SystemRow("a")})
    ensures NothingCut(TwoSystems(), OneInode(), {SystemRow("b")})
    ensures !NothingCut(TwoSystems(), OneInode(), {SystemRow("a"), SystemRow("b")})
  {
    hide EdgeHits, TwoSystems, NothingCut, OneInode;
    assert "a"[0] != "b"[0] && IdOf(SystemRow("a")) == StrV("a") && IdOf(SystemRow("b")) == StrV("b");
    assert Keys(System_Inodes, {SystemRow("a")}) == {StrV("a")};
    assert Keys(System_Inodes, {SystemRow("b")}) == {StrV("b")};
    assert Keys(System_Inodes, {SystemRow("a"), SystemRow("b")}) == {StrV("a"), StrV("b")};
    InodesOf({SystemRow("a")});
    InodesOf({SystemRow("b")});
    InodesOf({SystemRow("a"), SystemRow("b")});
    OneInodeCut({SystemRow("a")});
    OneInodeCut({SystemRow("b")});
    OneInodeCut({SystemRow("a"), SystemRow("b")});
  }

  lemma OneInodeCut(rows: set<Row>)
    requires rows != {}
    ensures NothingCut(TwoSystems(), OneInode(), rows) <==> |EdgeHits(TwoSystems(), System_Inodes, rows, [])| <= 1
  {
    hide EdgeHits, TwoSystems, NextRows;
    var plan := OneInode();
    var child := plan.withs[System_Inodes];
    assert plan.withs.Keys == {System_Inodes} && child.withs == map[];
    assert NothingCut(TwoSystems(), child, NextRows(TwoSystems(), System_Inodes, rows, child));
  }

  /** Loading both systems at once loses one of the two inodes: the loaded graphs are not those of
      the nested-loop joins. */
  lemma LimitLosesInode(g: Load)
    requires Loaded(TwoSystems(), g, OneInode(), []) && Srcs(g.nodes) == {SystemRow("a"), SystemRow("b")}
    ensures !AllNaive(TwoSystems(), g, OneInode(), [])
  {
    hide Loaded, AllNaive, NothingCut, WellFormed, TwoSystems;
    LimitIsPerBatch();
    TwoSystemsWellFormed();
    forall e: Edge ensures UniqueLinks(TwoSystems(), e) {
      TwoSystemsRows(System);
      if e.Rel().M2M? {
        TwoSystemsRows(e.Rel().table);
      }
    }
    OneInodeTyped();
    EagerIsNaive(TwoSystems(), g, OneInode(), []);
  }

  lemma OneInodeTyped()
    ensures WellTyped(OneInode())
  {
    var plan := OneInode();
    assert plan.withs.Keys == {System_Inodes} && plan.withs[System_Inodes].withs == map[];
    assert WellTyped(plan.withs[System_Inodes]);
  }

  /** No edge query has a limit or an offset. */
  ghost predicate Unlimited(plan: Plan) {
    forall e :: e in plan.withs ==>
      !Limited(plan.withs[e].limit) && Skipped(plan.withs[e].offset) == 0 && Unlimited(plan.withs[e])
  }

  /** Then nothing is ever cut, whatever the store holds, and eager loading shows the nested-loop
      joins. */
  lemma {:induction false} UnlimitedIsUncut(db: Db, plan: Plan, rows: set<Row>)
    requires Unlimited(plan)
    ensures NothingCut(db, plan, rows)
    decreases plan
  {
    forall e | e in plan.withs
      ensures BatchFits(db, e, rows, plan.withs[e])
      ensures NothingCut(db, plan.withs[e], NextRows(db, e, rows, plan.withs[e]))
    {
      UnlimitedIsUncut(db, plan.withs[e], NextRows(db, e, rows, plan.withs[e]));
    }
  }

  lemma UnlimitedIsNaive(db: Db, g: Load, plan: Plan, fields: seq<Column>)
    requires Unlimited(plan) && Loaded(db, g, plan, fields)
    ensures AllNaive(db, g, plan, fields)
  {
    UnlimitedIsUncut(db, plan, Srcs(g.nodes));
    UncutIsNaive(db, g, plan, fields);
  }

  lemma TwoSystemsWellFormed()
    ensures WellFormed(TwoSystems())
  {
    hide RowTyped, KeyColumns, TwoSystems, DistinctIds;
    forall typ
      ensures DistinctIds(Table(TwoSystems(), typ))
      ensures forall r, c :: r in Table(TwoSystems(), typ) && c in KeyColumns(typ) ==> Get(r, c) != Null
      ensures forall r :: r in Table(TwoSystems(), typ) ==> RowTyped(typ, r)
    {
      TwoSystemsTable(typ);
    }
  }

  lemma TwoSystemsTable(typ: EntityType)
    ensures DistinctIds(Table(TwoSystems(), typ))
    ensures forall r, c :: r in Table(TwoSystems(), typ) && c in KeyColumns(typ) ==> Get(r, c) != Null
    ensures forall r :: r in Table(TwoSystems(), typ) ==> RowTyped(typ, r)
  {
    hide RowTyped, TwoSystems;
    assert "a"[0] != "b"[0] && "x"[0] != "y"[0];
    RowsTyped("a", "x");
    RowsTyped("b", "y");
    TwoSystemsRows(typ);
    assert KeyColumns(System) == [Id] && KeyColumns(Inode) == [Id, SystemId];
  }

  lemma RowsTyped(system: string, inode: string)
    ensures RowTyped(System, SystemRow(system)) && RowTyped(Inode, InodeRow(inode, system))
  {
  }

  lemma TwoSystemsRows(typ: EntityType)
    ensures Table(TwoSystems(), System) == [SystemRow("a"), SystemRow("b")]
    ensures Table(TwoSystems(), Inode) == [InodeRow("x", "a"), InodeRow("y", "b")]
    ensures typ != System && typ != Inode ==> Table(TwoSystems(), typ) == []
  {
  }

  lemma InodesOf(rows: set<Row>)
    ensures |EdgeHits(TwoSystems(), System_Inodes, rows, [])|
            == (if StrV("a") in Keys(System_Inodes, rows) then 1 else 0)
               + if StrV("b") in Keys(System_Inodes, rows) then 1 else 0
  {
    var db, keys := TwoSystems(), Keys(System_Inodes, rows);
    assert EdgeHitsTo(db, System_Inodes, 0, keys, []) == [];
    assert EdgeHitsTo(db, System_Inodes, 1, keys, [])
      == if StrV("a") in keys then [Hit(Null, InodeRow("x", "a"))] else [];
  }

  // ---------------------------------------------------------------- the checked accessors

  datatype EdgeResult<+T> = Found(value: T) | NotFound | NotLoaded

  /** XOrErr of a to-one edge. */
  function OneOrErr(n: Node, e: Edge): EdgeResult<Node>
    reads n
  {
    if e in n.one then Found(n.one[e]) else if e in n.loadedTypes then NotFound else NotLoaded
  }

  /** XOrErr of a to-many edge. */
  function ManyOrErr(n: Node, e: Edge): EdgeResult<seq<Node>>
    reads n
  {
    if e in n.loadedTypes && e in n.many then Found(n.many[e]) else NotLoaded
  }

  /** The accessors tell the truth: "not loaded" exactly for edges that were not requested, "not
      found" exactly if no row passes, and otherwise the naive join. */
  lemma AccessorsAreNaive(db: Db, g: Load, plan: Plan, fields: seq<Column>, n: Node, e: Edge)
    requires Loaded(db, g, plan, fields) && NothingCut(db, plan, Srcs(g.nodes)) && n in g.nodes
    ensures OneOrErr(n, e).NotLoaded? <==> e !in plan.withs
    ensures ManyOrErr(n, e).NotLoaded? <==> e !in plan.withs || e.Rel().M2O?
    ensures e in plan.withs && e.Rel().M2O? ==>
      if Naive(db, e, n.src, plan.withs[e]) == [] then OneOrErr(n, e).NotFound?
      else OneOrErr(n, e).Found? && OneOrErr(n, e).value.src in Naive(db, e, n.src, plan.withs[e])
    ensures e in plan.withs && !e.Rel().M2O? ==>
      Srcs(ManyOrErr(n, e).value) == Elems(Naive(db, e, n.src, plan.withs[e]))
  {
    hide Naive, NothingCut, Complete, Loaded, EdgeLoaded, NodeLoaded, Answering;
    RequestedEdges(db, g, plan, fields, n, e);
    if e in plan.withs {
      UncutEdge(db, g, plan, fields, n, e);
      KidLoaded(db, g, plan, fields, e);
      RequestedHeld(db, g, plan, fields, n, e);
      if Naive(db, e, n.src, plan.withs[e]) != [] {
        assert Naive(db, e, n.src, plan.withs[e])[0] in Naive(db, e, n.src, plan.withs[e]);
      }
    }
  }

  lemma RequestedEdges(db: Db, g: Load, plan: Plan, fields: seq<Column>, n: Node, e: Edge)
    requires Loaded(db, g, plan, fields) && n in g.nodes
    ensures n.loadedTypes == plan.withs.Keys
    ensures e in n.one ==> e in plan.withs && e.Rel().M2O?
    ensures e in n.many <==> e in plan.withs && !e.Rel().M2O?
  {
  }

  lemma RequestedHeld(db: Db, g: Load, plan: Plan, fields: seq<Column>, n: Node, e: Edge)
    requires Loaded(db, g, plan, fields) && n in g.nodes && e in plan.withs && Complete(db, e, n, plan.withs[e])
    ensures forall k :: k in Attached(n, e) ==> k.src in Naive(db, e, n.src, plan.withs[e])
    ensures forall c :: c in Naive(db, e, n.src, plan.withs[e]) ==> exists k :: k in Attached(n, e) && k.src == c
  {
    KidLoaded(db, g, plan, fields, e);
    HeldRows(db, e, g.nodes, n, g.kids[e].nodes, plan.withs[e]);
  }
}
