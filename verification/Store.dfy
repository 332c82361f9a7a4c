/** The database the queries run against, and what a query builder means on it. The store is the
    part the source delegates to a library: it answers a query with the rows that satisfy it, in
    an order it is free to choose. */
module Store {
  import opened Schema
  import opened Seqs

  datatype Option<+T> = None | Some(value: T)

  type Row = map<Column, Value>

  function Get(r: Row, c: Column): Value {
    if c in r then r[c] else Null
  }

  function IdOf(r: Row): Value {
    Get(r, Id)
  }

  datatype Db = Db(tables: map<EntityType, seq<Row>>)

  function Table(db: Db, typ: EntityType): seq<Row> {
    if typ in db.tables then db.tables[typ] else []
  }

  ghost predicate DistinctIds(rows: seq<Row>) {
    forall i, j :: 0 <= i < j < |rows| ==> IdOf(rows[i]) != IdOf(rows[j])
  }

  /** Every column has the type of its struct field, and ids are not NULL. */
  ghost predicate RowTyped(typ: EntityType, r: Row) {
    Get(r, Id) != Null && forall c :: c in Columns(typ) && Get(r, c) != Null ==> HasKind(Get(r, c), KindOf(typ, c))
  }

  /** What the database schema guarantees: primary keys are unique, ids and foreign keys are never
      NULL, and columns have their types. Whether a foreign key points at an existing row is not
      needed. */
  ghost predicate WellFormed(db: Db) {
    forall typ ::
      && DistinctIds(Table(db, typ))
      && (forall r, c :: r in Table(db, typ) && c in KeyColumns(typ) ==> Get(r, c) != Null)
      && forall r :: r in Table(db, typ) ==> RowTyped(typ, r)
  }

  lemma SameId(rows: seq<Row>, a: Row, b: Row)
    requires DistinctIds(rows) && a in rows && b in rows && IdOf(a) == IdOf(b)
    ensures a == b
  {
  }

  // ---------------------------------------------------------------- query values

  /** A predicate appended to a builder: a row filter, or the join a many-to-many load adds. */
  datatype Clause =
    | Filter(test: Row -> bool)
    | JoinOn(table: EntityType, outCol: Column, inCol: Column, ids: seq<Value>)

  /** The value a query builder holds: its own settings and one value per requested edge. */
  datatype Plan = Plan(typ: EntityType, fields: seq<Column>, preds: seq<Clause>, order: seq<Column>,
                       limit: Option<nat>, offset: Option<nat>, withs: map<Edge, Plan>)

  predicate ValidFields(typ: EntityType, fields: seq<Column>) {
    forall c :: c in fields ==> c in Columns(typ)
  }

  /** The first selected field that is not a column of the entity. */
  function FirstBad(typ: EntityType, fields: seq<Column>): (bad: Option<Column>)
    ensures bad.None? <==> ValidFields(typ, fields)
    ensures bad.Some? ==> bad.value in fields && bad.value !in Columns(typ)
  {
    if fields == [] then None
    else if fields[0] !in Columns(typ) then Some(fields[0])
    else FirstBad(typ, fields[1..])
  }

  /** Another field that is a column is no reason to fail. */
  lemma {:induction false} FirstBadMore(typ: EntityType, fields: seq<Column>, c: Column)
    requires c in Columns(typ)
    ensures FirstBad(typ, fields + [c]) == FirstBad(typ, fields)
  {
    if fields == [] {
      assert [c][1..] == [];
    } else {
      assert (fields + [c])[1..] == fields[1..] + [c];
      FirstBadMore(typ, fields[1..], c);
    }
  }

  /** Builders only request edges of their own entity, with a builder of the edge's target. */
  ghost predicate WellTyped(p: Plan) {
    forall e :: e in p.withs ==> e.Owner() == p.typ && p.withs[e].typ == e.Target() && WellTyped(p.withs[e])
  }

  /** Every field selected anywhere in the tree is a column of its entity. */
  ghost predicate AllFieldsValid(p: Plan) {
    ValidFields(p.typ, p.fields) && forall e :: e in p.withs ==> AllFieldsValid(p.withs[e])
  }

  /** One query for the builder itself, and those of the builders of its edges. */
  function Queries(p: Plan): nat
    decreases p, 1, 0
  {
    1 + EdgeQueries(p, EdgesOf(p.typ))
  }

  function EdgeQueries(p: Plan, edges: seq<Edge>): nat
    decreases p, 0, |edges|
  {
    if edges == [] then 0
    else (if edges[0] in p.withs then Queries(p.withs[edges[0]]) else 0) + EdgeQueries(p, edges[1..])
  }

  /** A builder alone is one query. */
  lemma QueriesAlone(p: Plan)
    requires p.withs == map[]
    ensures Queries(p) == 1
  {
    NoEdgeQueries(p, EdgesOf(p.typ));
  }

  lemma {:induction false} NoEdgeQueries(p: Plan, edges: seq<Edge>)
    requires p.withs == map[]
    ensures EdgeQueries(p, edges) == 0
  {
    if edges == [] {
    } else {
      NoEdgeQueries(p, edges[1..]);
    }
  }

  /** And one more requested edge adds the queries of its own builder. */
  lemma QueriesMore(p: Plan, e: Edge, child: Plan)
    requires e.Owner() == p.typ && e !in p.withs
    ensures Queries(p.(withs := p.withs[e := child])) == Queries(p) + Queries(child)
  {
    EdgesOfOwner(p.typ);
    EdgeQueriesMore(p, e, child, EdgesOf(p.typ));
  }

  lemma {:induction false} EdgeQueriesMore(p: Plan, e: Edge, child: Plan, edges: seq<Edge>)
    requires e !in p.withs && Distinct(edges)
    ensures EdgeQueries(p.(withs := p.withs[e := child]), edges)
            == EdgeQueries(p, edges) + if e in edges then Queries(child) else 0
  {
    if edges == [] {
    } else {
      assert edges == [edges[0]] + edges[1..];
      EdgeQueriesMore(p, e, child, edges[1..]);
    }
  }

  lemma EdgeQueriesStep(p: Plan, edges: seq<Edge>)
    ensures EdgeQueries(p, edges) == if edges == [] then 0
      else (if edges[0] in p.withs then Queries(p.withs[edges[0]]) else 0) + EdgeQueries(p, edges[1..])
  {
  }

  lemma {:induction false} SameEdgeQueries(a: Plan, b: Plan, edges: seq<Edge>)
    requires a.withs == b.withs
    ensures EdgeQueries(a, edges) == EdgeQueries(b, edges)
  {
    if edges == [] {
    } else {
      SameEdgeQueries(a, b, edges[1..]);
    }
  }

  ghost predicate Passes(preds: seq<Clause>, r: Row) {
    forall i :: 0 <= i < |preds| && preds[i].Filter? ==> preds[i].test(r)
  }

  /** The builder API only appends filters; a join is only ever appended last, by a loader. */
  ghost predicate OnlyFilters(preds: seq<Clause>) {
    forall i :: 0 <= i < |preds| ==> preds[i].Filter?
  }

  predicate HasJoin(preds: seq<Clause>) {
    preds != [] && preds[|preds| - 1].JoinOn?
  }

  ghost predicate ApiPreds(p: Plan) {
    OnlyFilters(p.preds) && forall e :: e in p.withs ==> ApiPreds(p.withs[e])
  }

  // ---------------------------------------------------------------- the naive join

  /** Row `c` is on edge `e` of row `p`. */
  ghost predicate Related(db: Db, e: Edge, p: Row, c: Row) {
    match e.Rel()
    case M2O(fk) => IdOf(c) == Get(p, fk)
    case O2M(fk) => Get(c, fk) == IdOf(p)
    case M2M(t, outCol, inCol) =>
      exists j :: j in Table(db, t) && Get(j, outCol) == IdOf(p) && Get(j, inCol) == IdOf(c)
  }

  /** The nested-loop join for one row: every candidate on the edge that passes the predicates
      of the edge's own query, each once. */
  ghost function Naive(db: Db, e: Edge, p: Row, child: Plan): seq<Row> {
    Keep(Table(db, e.Target()), set c | c in Table(db, e.Target()) && Passes(child.preds, c) && Related(db, e, p, c))
  }

  /** The fields an edge query ends up with: a one-to-many load adds the foreign key it groups
      by, when the caller selected fields at all. */
  function EdgeFields(e: Edge, fields: seq<Column>): seq<Column> {
    match e.Rel()
    case O2M(fk) => if fields == [] || fk in fields then fields else fields + [fk]
    case _ => fields
  }

  /** The columns read for a node: all of them, or the id, the selected fields and the foreign
      keys of the requested many-to-one edges. */
  ghost function ColumnSet(typ: EntityType, fields: seq<Column>, wanted: set<Edge>): set<Column> {
    if fields == [] then Elems(Columns(typ))
    else {Id} + Elems(fields) + (set e | e in wanted && e.Rel().M2O? :: e.Rel().fk)
  }

  /** The struct fields after decoding those columns; NULL leaves a field at its zero value. */
  ghost function Decode(r: Row, cols: set<Column>): Row {
    map c | c in cols && Get(r, c) != Null :: Get(r, c)
  }

  /** An object graph as a value: the decoded fields, and the set of graphs on each requested
      edge. A to-one edge holds at most one. */
  datatype Graph = Graph(fields: Row, edges: map<Edge, set<Graph>>)

  /** The object graph of one row, by nested-loop joins all the way down. */
  ghost function NaiveGraph(db: Db, plan: Plan, fields: seq<Column>, r: Row): Graph
    decreases plan
  {
    Graph(Decode(r, ColumnSet(plan.typ, fields, plan.withs.Keys)),
          map e | e in plan.withs ::
            set c | c in Naive(db, e, r, plan.withs[e]) ::
              NaiveGraph(db, plan.withs[e], EdgeFields(e, plan.withs[e].fields), c))
  }

  // ---------------------------------------------------------------- answering a query

  /** One answered row, with the join column in front when the query joins. */
  datatype Hit = Hit(out: Value, row: Row)

  ghost predicate IsHit(db: Db, from: seq<Row>, preds: seq<Clause>, h: Hit) {
    && h.row in from
    && Passes(preds, h.row)
    && if HasJoin(preds) then Joined(db, preds[|preds| - 1], h) else h.out == Null
  }

  ghost predicate Joined(db: Db, join: Clause, h: Hit)
    requires join.JoinOn?
  {
    && h.out in join.ids
    && exists j :: j in Table(db, join.table) && Get(j, join.outCol) == h.out && Get(j, join.inCol) == IdOf(h.row)
  }

  /** The rows joined to `r` by the first `n` rows of a join table. */
  ghost function PairsTo(joins: seq<Row>, n: nat, outCol: Column, inCol: Column, ids: set<Value>, r: Row): seq<Hit>
    requires n <= |joins|
  {
    if n == 0 then []
    else
      PairsTo(joins, n - 1, outCol, inCol, ids, r)
        + if Get(joins[n - 1], inCol) == IdOf(r) && Get(joins[n - 1], outCol) in ids
          then [Hit(Get(joins[n - 1], outCol), r)] else []
  }

  /** The hits of one row that passes: itself, or one per matching row of the join table. */
  ghost function RowHits(db: Db, preds: seq<Clause>, r: Row): seq<Hit> {
    if HasJoin(preds) then
      var join := preds[|preds| - 1];
      PairsTo(Table(db, join.table), |Table(db, join.table)|, join.outCol, join.inCol, Elems(join.ids), r)
    else [Hit(Null, r)]
  }

  /** The nested loop over the first `n` candidates and their join partners. */
  ghost function HitsTo(db: Db, from: seq<Row>, n: nat, preds: seq<Clause>): seq<Hit>
    requires n <= |from|
  {
    if n == 0 then []
    else HitsTo(db, from, n - 1, preds) + if Passes(preds, from[n - 1]) then RowHits(db, preds, from[n - 1]) else []
  }

  /** The whole answer to a query, before LIMIT and OFFSET. */
  ghost function AllHits(db: Db, from: seq<Row>, preds: seq<Clause>): seq<Hit> {
    HitsTo(db, from, |from|, preds)
  }

  lemma {:induction false} PairsMembers(joins: seq<Row>, n: nat, outCol: Column, inCol: Column, ids: set<Value>, r: Row)
    requires n <= |joins|
    ensures forall h :: h in PairsTo(joins, n, outCol, inCol, ids, r) <==>
      h.row == r && h.out in ids
      && exists i :: 0 <= i < n && Get(joins[i], outCol) == h.out && Get(joins[i], inCol) == IdOf(r)
  {
    if n == 0 {
    } else {
      PairsMembers(joins, n - 1, outCol, inCol, ids, r);
    }
  }

  lemma RowHitsMembers(db: Db, preds: seq<Clause>, r: Row)
    requires Passes(preds, r)
    ensures forall h :: h in RowHits(db, preds, r) <==> IsHit(db, [r], preds, h)
  {
    if HasJoin(preds) {
      var join := preds[|preds| - 1];
      var joins := Table(db, join.table);
      PairsMembers(joins, |joins|, join.outCol, join.inCol, Elems(join.ids), r);
    }
  }

  /** The answer holds exactly the hits. */
  lemma {:induction false} HitsMembers(db: Db, from: seq<Row>, n: nat, preds: seq<Clause>)
    requires n <= |from|
    ensures forall h :: h in HitsTo(db, from, n, preds) <==> IsHit(db, from[..n], preds, h)
  {
    if n == 0 {
    } else {
      HitsMembers(db, from, n - 1, preds);
      assert from[..n] == from[..n - 1] + [from[n - 1]];
      if Passes(preds, from[n - 1]) {
        RowHitsMembers(db, preds, from[n - 1]);
      }
    }
  }

  lemma AllHitsMembers(db: Db, from: seq<Row>, preds: seq<Clause>)
    ensures forall h :: h in AllHits(db, from, preds) <==> IsHit(db, from, preds, h)
  {
    HitsMembers(db, from, |from|, preds);
    assert from[..|from|] == from;
  }

  /** A join table never links the same two ids twice: the unique indexes of the schema. */
  ghost predicate UniquePairs(joins: seq<Row>, outCol: Column, inCol: Column) {
    forall i, j :: 0 <= i < j < |joins| ==>
      Get(joins[i], outCol) != Get(joins[j], outCol) || Get(joins[i], inCol) != Get(joins[j], inCol)
  }

  ghost predicate UniqueJoin(db: Db, preds: seq<Clause>) {
    HasJoin(preds) ==>
      var join := preds[|preds| - 1];
      UniquePairs(Table(db, join.table), join.outCol, join.inCol)
  }

  lemma {:induction false} PairsDistinct(joins: seq<Row>, n: nat, outCol: Column, inCol: Column, ids: set<Value>,
                                         r: Row)
    requires n <= |joins| && UniquePairs(joins, outCol, inCol)
    ensures Distinct(PairsTo(joins, n, outCol, inCol, ids, r))
  {
    if n == 0 {
    } else {
      PairsDistinct(joins, n - 1, outCol, inCol, ids, r);
      PairsMembers(joins, n - 1, outCol, inCol, ids, r);
    }
  }

  /** Then no hit is answered twice. */
  lemma {:induction false} HitsDistinct(db: Db, from: seq<Row>, n: nat, preds: seq<Clause>)
    requires n <= |from| && Distinct(from) && UniqueJoin(db, preds)
    ensures Distinct(HitsTo(db, from, n, preds))
  {
    if n == 0 {
    } else {
      HitsDistinct(db, from, n - 1, preds);
      if Passes(preds, from[n - 1]) {
        RowHitsDistinct(db, preds, from[n - 1]);
        HitsApart(db, from, n - 1, preds);
        ConcatDistinct(HitsTo(db, from, n - 1, preds), RowHits(db, preds, from[n - 1]));
      }
    }
  }

  lemma RowHitsDistinct(db: Db, preds: seq<Clause>, r: Row)
    requires UniqueJoin(db, preds)
    ensures Distinct(RowHits(db, preds, r))
  {
    if HasJoin(preds) {
      var join := preds[|preds| - 1];
      PairsDistinct(Table(db, join.table), |Table(db, join.table)|, join.outCol, join.inCol, Elems(join.ids), r);
    }
  }

  lemma HitsApart(db: Db, from: seq<Row>, n: nat, preds: seq<Clause>)
    requires n < |from| && Distinct(from) && Passes(preds, from[n])
    ensures forall h :: h in HitsTo(db, from, n, preds) ==> h !in RowHits(db, preds, from[n])
  {
    HitsMembers(db, from, n, preds);
    RowHitsMembers(db, preds, from[n]);
    TakeSnoc(from, n);
  }

  // ---------------------------------------------------------------- the batch query of an edge

  /** The value that leads from a row to the rows on its edge: its foreign key, or its id. */
  function Key(e: Edge, p: Row): Value {
    match e.Rel()
    case M2O(fk) => Get(p, fk)
    case _ => IdOf(p)
  }

  ghost function Keys(e: Edge, rows: set<Row>): set<Value> {
    set p | p in rows :: Key(e, p)
  }

  /** What a candidate row contributes to the batch query of an edge. */
  ghost function ChildHits(db: Db, e: Edge, keys: set<Value>, c: Row): seq<Hit> {
    match e.Rel()
    case M2O(_) => if IdOf(c) in keys then [Hit(Null, c)] else []
    case O2M(fk) => if Get(c, fk) in keys then [Hit(Null, c)] else []
    case M2M(t, outCol, inCol) => PairsTo(Table(db, t), |Table(db, t)|, outCol, inCol, keys, c)
  }

  ghost function EdgeHitsTo(db: Db, e: Edge, n: nat, keys: set<Value>, preds: seq<Clause>): seq<Hit>
    requires n <= |Table(db, e.Target())|
  {
    if n == 0 then []
    else
      var c := Table(db, e.Target())[n - 1];
      EdgeHitsTo(db, e, n - 1, keys, preds) + if Passes(preds, c) then ChildHits(db, e, keys, c) else []
  }

  /** Without LIMIT and OFFSET, the batch query of edge `e` would answer this for these rows. */
  ghost function EdgeHits(db: Db, e: Edge, rows: set<Row>, preds: seq<Clause>): seq<Hit> {
    EdgeHitsTo(db, e, |Table(db, e.Target())|, Keys(e, rows), preds)
  }

  /** LIMIT and OFFSET of the edge's query, which apply to the whole batch at once, cut nothing. */
  ghost predicate BatchFits(db: Db, e: Edge, rows: set<Row>, child: Plan) {
    Fits(|EdgeHits(db, e, rows, child.preds)|, child.limit, child.offset)
  }

  /** The unique index behind a many-to-many edge. */
  ghost predicate UniqueLinks(db: Db, e: Edge) {
    match e.Rel()
    case M2M(t, outCol, inCol) => UniquePairs(Table(db, t), outCol, inCol)
    case _ => true
  }

  lemma ClauseAdded(preds: seq<Clause>, clause: Clause, r: Row)
    ensures Passes(preds + [clause], r) <==> Passes(preds, r) && (clause.Filter? ==> clause.test(r))
    ensures (preds + [clause])[|preds + [clause]| - 1] == clause
  {
    var more := preds + [clause];
    assert more[|preds|] == clause;
    assert forall i :: 0 <= i < |preds| ==> more[i] == preds[i];
  }

  /** A filter on the keys makes a query the batch query of a foreign-key edge. */
  lemma {:induction false} FilterHits(db: Db, e: Edge, n: nat, keys: set<Value>, preds: seq<Clause>, test: Row -> bool)
    requires n <= |Table(db, e.Target())| && !e.Rel().M2M?
    requires forall c :: c in Table(db, e.Target()) ==> (test(c) <==> ChildHits(db, e, keys, c) != [])
    ensures HitsTo(db, Table(db, e.Target()), n, preds + [Filter(test)]) == EdgeHitsTo(db, e, n, keys, preds)
  {
    if n == 0 {
    } else {
      FilterHits(db, e, n - 1, keys, preds, test);
      ClauseAdded(preds, Filter(test), Table(db, e.Target())[n - 1]);
    }
  }

  /** A join on the keys makes a query the batch query of a many-to-many edge. */
  lemma {:induction false} JoinHits(db: Db, e: Edge, n: nat, keys: set<Value>, preds: seq<Clause>, join: Clause)
    requires n <= |Table(db, e.Target())|
    requires join.JoinOn? && e.Rel() == M2M(join.table, join.outCol, join.inCol) && Elems(join.ids) == keys
    ensures HitsTo(db, Table(db, e.Target()), n, preds + [join]) == EdgeHitsTo(db, e, n, keys, preds)
  {
    if n == 0 {
    } else {
      JoinHits(db, e, n - 1, keys, preds, join);
      ClauseAdded(preds, join, Table(db, e.Target())[n - 1]);
    }
  }

  /** Nothing is on the edge of nothing. */
  lemma {:induction false} NoKeys(db: Db, e: Edge, n: nat, preds: seq<Clause>)
    requires n <= |Table(db, e.Target())| && !e.Rel().M2M?
    ensures EdgeHitsTo(db, e, n, {}, preds) == []
  {
    if n == 0 {
    } else {
      NoKeys(db, e, n - 1, preds);
    }
  }

  // ---------------------------------------------------------------- the query engine

  /** The connection to the store, which counts its queries. Whether it answers them is up to the
      store: any query may fail. */
  class Connection {
    const answers: nat -> bool
    var asked: nat

    constructor (answers: nat -> bool)
      ensures this.answers == answers && asked == 0
    {
      this.answers, asked := answers, 0;
    }

    method Ask() returns (ok: bool)
      modifies this`asked
      ensures Heard(old(asked), 1, !ok)
    {
      ok := answers(asked);
      asked := asked + 1;
    }

    /** Since the first `from` queries, at most `most` were asked. All of them were answered, but for
        the last one if the whole failed. */
    ghost predicate Heard(from: nat, most: nat, failed: bool)
      reads this
    {
      && from <= asked <= from + most
      && (failed ==> from < asked && !answers(asked - 1))
      && forall k :: from <= k < (if failed then asked - 1 else asked) ==> answers(k)
    }

    /** One part of the work after another; a part that failed is the last. */
    twostate lemma Then(new from: nat, new first: nat, new second: nat, new failed: bool)
      requires old(Heard(from, first, false)) && Heard(old(asked), second, failed)
      ensures Heard(from, first + second, failed)
    {
    }

    lemma Within(from: nat, most: nat, more: nat, failed: bool)
      requires Heard(from, most, failed) && most <= more
      ensures Heard(from, more, failed)
    {
    }
  }

  method RowPasses(preds: seq<Clause>, r: Row) returns (b: bool)
    ensures b == Passes(preds, r)
  {
    var i := 0;
    while i < |preds|
      invariant 0 <= i <= |preds|
      invariant forall k :: 0 <= k < i && preds[k].Filter? ==> preds[k].test(r)
    {
      if preds[i].Filter? && !preds[i].test(r) {
        return false;
      }
      i := i + 1;
    }
    return true;
  }

  /** The hits of one candidate row. */
  method JoinRow(db: Db, preds: seq<Clause>, r: Row) returns (hits: seq<Hit>)
    ensures hits == RowHits(db, preds, r)
  {
    if !HasJoin(preds) {
      return [Hit(Null, r)];
    }
    var join := preds[|preds| - 1];
    var joins := Table(db, join.table);
    hits := [];
    var i := 0;
    while i < |joins|
      invariant 0 <= i <= |joins|
      invariant hits == PairsTo(joins, i, join.outCol, join.inCol, Elems(join.ids), r)
    {
      if Get(joins[i], join.inCol) == IdOf(r) && Get(joins[i], join.outCol) in join.ids {
        hits := hits + [Hit(Get(joins[i], join.outCol), r)];
      }
      i := i + 1;
    }
  }

  /** Any order at all: keep moving an arbitrarily chosen element to the end of the result. */
  method Shuffle<T>(s: seq<T>) returns (r: seq<T>)
    ensures multiset(r) == multiset(s)
  {
    var rest := s;
    r := [];
    while rest != []
      invariant multiset(r) + multiset(rest) == multiset(s)
      decreases |rest|
    {
      var k :| 0 <= k < |rest|;
      assert rest == rest[..k] + [rest[k]] + rest[k + 1..];
      r, rest := r + [rest[k]], rest[..k] + rest[k + 1..];
    }
  }

  /** A limit of zero is no limit: the builder copies it into a specification whose zero value
      means just that. */
  predicate Limited(limit: Option<nat>) {
    limit.Some? && limit.value != 0
  }

  function Skipped(offset: Option<nat>): nat {
    if offset.Some? then offset.value else 0
  }

  /** How many of `n` rows LIMIT and OFFSET leave. */
  function WindowSize(n: nat, limit: Option<nat>, offset: Option<nat>): nat {
    var tail := if Skipped(offset) <= n then n - Skipped(offset) else 0;
    if Limited(limit) && limit.value < tail then limit.value else tail
  }

  /** LIMIT and OFFSET cut nothing off an answer of `n` rows. */
  predicate Fits(n: nat, limit: Option<nat>, offset: Option<nat>) {
    (Skipped(offset) == 0 || n == 0) && (Limited(limit) ==> n <= limit.value)
  }

  /** Without a limit, or with a limit of zero, what the offset leaves; otherwise at most the limit. */
  lemma WindowSizes(n: nat, limit: nat, offset: nat)
    ensures WindowSize(n, None, None) == WindowSize(n, Some(0), None) == n
    ensures WindowSize(n, None, Some(offset)) == WindowSize(n, Some(0), Some(offset))
            == if offset <= n then n - offset else 0
    ensures limit > 0 ==> WindowSize(n, Some(limit), None) == if limit < n then limit else n
    ensures limit > 0 ==>
      WindowSize(n, Some(limit), Some(offset))
      == if n <= offset then 0 else if limit < n - offset then limit else n - offset
  {
  }

  lemma FitsSize(n: nat, limit: Option<nat>, offset: Option<nat>)
    ensures WindowSize(n, limit, offset) <= n
    ensures Fits(n, limit, offset) <==> WindowSize(n, limit, offset) == n
  {
  }

  /** LIMIT and OFFSET: skip `offset` rows, then keep at most `limit`. */
  method Window<T>(s: seq<T>, limit: Option<nat>, offset: Option<nat>) returns (r: seq<T>)
    ensures |r| == WindowSize(|s|, limit, offset)
    ensures multiset(r) <= multiset(s)
  {
    var from := if Skipped(offset) <= |s| then Skipped(offset) else |s|;
    var to := if Limited(limit) && limit.value < |s| - from then from + limit.value else |s|;
    r := s[from..to];
    assert s == s[..from] + s[from..to] + s[to..];
  }

  /** What the library may return for a query: some of the whole answer in any order, as many
      rows as LIMIT and OFFSET leave. */
  ghost predicate IsAnswer(hits: seq<Hit>, all: seq<Hit>, limit: Option<nat>, offset: Option<nat>) {
    multiset(hits) <= multiset(all) && |hits| == WindowSize(|all|, limit, offset)
  }

  /** The library's answer to a query over the candidate rows `from`. */
  method QueryNodes(db: Db, from: seq<Row>, preds: seq<Clause>, limit: Option<nat>, offset: Option<nat>)
    returns (hits: seq<Hit>)
    ensures IsAnswer(hits, AllHits(db, from, preds), limit, offset)
  {
    var all: seq<Hit> := [];
    var i := 0;
    while i < |from|
      invariant 0 <= i <= |from|
      invariant all == HitsTo(db, from, i, preds)
    {
      var ok := RowPasses(preds, from[i]);
      if ok {
        var more := JoinRow(db, preds, from[i]);
        all := all + more;
      }
      i := i + 1;
    }
    var order := Shuffle(all);
    assert |order| == |multiset(order)| == |multiset(all)| == |all|;
    hits := Window(order, limit, offset);
  }

  lemma AnswerMembers(hits: seq<Hit>, all: seq<Hit>, limit: Option<nat>, offset: Option<nat>)
    requires IsAnswer(hits, all, limit, offset)
    ensures forall h :: h in hits ==> h in all
    ensures Fits(|all|, limit, offset) ==> forall h :: h in all ==> h in hits
  {
    SubMembers(hits, all);
    FitsSize(|all|, limit, offset);
  }

  /** A cut answer without repetitions lacks a row. */
  lemma AnswerLacks(hits: seq<Hit>, all: seq<Hit>, limit: Option<nat>, offset: Option<nat>)
    requires IsAnswer(hits, all, limit, offset) && Distinct(all) && !Fits(|all|, limit, offset)
    ensures exists h :: h in all && h !in hits
  {
    FitsSize(|all|, limit, offset);
    DistinctSize(all);
    ElemsSize(hits);
    if forall h :: h in all ==> h in hits {
      assert Elems(all) <= Elems(hits);
      SubsetSize(Elems(all), Elems(hits));
    }
  }
}
