/** Chained queries: prepareQuery, and the path of builders a query was chained from, which decides
    the rows it selects among. */
module Traversal {
  import opened Seqs
  import opened Schema
  import opened Store
  import opened Builder

  const MAX_INT32: nat := 0x7fff_ffff

  /** The rows a query selects among: rows of its table, none twice. */
  ghost predicate Candidates(db: Db, typ: EntityType, from: seq<Row>) {
    Distinct(from) && forall r :: r in from ==> r in Table(db, typ)
  }

  /** The rows reached over the path: the whole table, or the rows on the last edge of some row that
      was reached before it and passes the builder there. */
  ghost function Reach(db: Db, q: Query): set<Row>
    requires q.Linked()
    reads q.Chain()
    decreases q.rank
  {
    if q.prev == null then Elems(Table(db, q.typ))
    else
      set c | c in Table(db, q.typ) &&
        exists p :: p in Reach(db, q.prev) && Passes(q.prev.preds, p) && Related(db, q.via, p, c)
  }

  /** The first selected field along the path, beginning with the builder itself, that is not a column of
      its entity. */
  ghost function PathBad(q: Query): Option<Column>
    requires q.Linked()
    reads q.Chain()
    decreases q.rank
  {
    if FirstBad(q.typ, q.fields).Some? then FirstBad(q.typ, q.fields)
    else if q.prev != null then PathBad(q.prev)
    else None
  }

  /** No builder before this one limits its rows. */
  ghost predicate PathUncut(q: Query)
    requires q.Linked()
    reads q.Chain()
    decreases q.rank
  {
    q.prev != null ==> assert q.prev in q.prev.Chain(); q.prev.limit.None? && q.prev.offset.None? && PathUncut(q.prev)
  }

  /** Builders on a path hold only filters. */
  ghost predicate PathFilters(q: Query)
    requires q.Linked()
    reads q.Chain()
    decreases q.rank
  {
    q.prev != null ==> assert q.prev in q.prev.Chain(); OnlyFilters(q.prev.preds) && PathFilters(q.prev)
  }

  /** prepareQuery: validate the selected fields, then evaluate the path, which prepares the builder
      it starts from. It ends, because paths only lead to older builders. */
  method PrepareQuery(db: Db, q: Query) returns (bad: Option<Column>, from: seq<Row>)
    requires WellFormed(db) && q.Linked() && PathFilters(q)
    ensures bad == PathBad(q)
    ensures Candidates(db, q.typ, from)
    ensures q.prev == null ==> from == Table(db, q.typ)
    ensures bad.None? ==> Elems(from) <= Reach(db, q) && (PathUncut(q) ==> Elems(from) == Reach(db, q))
    decreases q.rank, 0
  {
    ChainAllocated(q);
    from := Table(db, q.typ);
    TableCandidates(db, q.typ);
    bad := FirstInvalid(q);
    if bad.None? && q.prev != null {
      bad, from := Path(db, q, q.prev);
    }
  }

  lemma ChainAllocated(q: Query)
    requires q.Linked()
    ensures forall p :: p in q.Chain() ==> allocated(p)
    decreases q.rank
  {
    if q.prev != null {
      ChainAllocated(q.prev);
    }
  }

  /** The first selected field that is not a column of the entity. */
  method FirstInvalid(q: Query) returns (bad: Option<Column>)
    ensures bad == FirstBad(q.typ, q.fields)
  {
    hide Columns;
    var i := 0;
    while i < |q.fields|
      invariant 0 <= i <= |q.fields|
      invariant FirstBad(q.typ, q.fields) == FirstBad(q.typ, q.fields[i..])
    {
      assert q.fields[i..][0] == q.fields[i] && q.fields[i..][1..] == q.fields[i + 1..];
      if q.fields[i] !in Columns(q.typ) {
        return Some(q.fields[i]);
      }
      i := i + 1;
    }
    return None;
  }

  /** The path closure of QueryX: prepare the builder before, select its rows, and step over the
      edge. */
  method Path(db: Db, q: Query, prev: Query) returns (bad: Option<Column>, from: seq<Row>)
    requires WellFormed(db) && q.Linked() && q.prev == prev && PathFilters(q)
    ensures bad == PathBad(prev)
    ensures Candidates(db, q.typ, from)
    ensures bad.None? ==> Elems(from) <= Reach(db, q) && (PathUncut(q) ==> Elems(from) == Reach(db, q))
    decreases prev.rank, 1
  {
    ChainAllocated(q);
    ChainAllocated(prev);
    from := [];
    var before;
    bad, before := PrepareQuery(db, prev);
    if bad.None? {
      var rows := SqlQuery(db, prev, before);
      from := SetNeighbors(db, q.via, rows);
    }
  }

  /** An offset without a limit comes with the largest 32-bit limit. */
  function SubselectLimit(limit: Option<nat>, offset: Option<nat>): Option<nat> {
    if limit.None? && offset.Some? then Some(MAX_INT32) else limit
  }

  /** sqlQuery: the rows of the builder before. Here a limit of zero does mean none. */
  method SqlQuery(db: Db, q: Query, from: seq<Row>) returns (rows: seq<Row>)
    requires OnlyFilters(q.preds)
    ensures forall r :: r in rows ==> r in from && Passes(q.preds, r)
    ensures q.limit.None? && q.offset.None? ==> forall r :: r in from && Passes(q.preds, r) ==> r in rows
    ensures q.prev == null && q.limit == Some(0) ==> rows == []
    ensures q.prev == null && q.limit.Some? && q.limit.value > 0 ==>
      |rows| == WindowSize(|AllHits(db, from, q.preds)|, q.limit, q.offset)
    ensures q.prev == null && q.limit.None? && q.offset.None? ==> |rows| == |AllHits(db, from, q.preds)|
    ensures q.prev == null && q.limit.None? && q.offset.Some? ==>
      |rows| == WindowSize(|AllHits(db, from, q.preds)|, Some(2147483647), q.offset)
  {
    rows := [];
    if q.limit == Some(0) {
      return;
    }
    var limit := SubselectLimit(q.limit, q.offset);
    var hits := QueryNodes(db, from, q.preds, limit, q.offset);
    AnswerMembers(hits, AllHits(db, from, q.preds), limit, q.offset);
    AllHitsMembers(db, from, q.preds);
    var i := 0;
    while i < |hits|
      invariant 0 <= i <= |hits| && |rows| == i
      invariant forall r :: r in rows ==> r in from && Passes(q.preds, r)
      invariant forall k :: 0 <= k < i ==> hits[k].row in rows
    {
      assert hits[i] in hits;
      rows := rows + [hits[i].row];
      i := i + 1;
    }
    forall r | q.limit.None? && q.offset.None? && r in from && Passes(q.preds, r) ensures r in rows {
      assert IsHit(db, from, q.preds, Hit(Null, r));
      var k :| 0 <= k < |hits| && hits[k] == Hit(Null, r);
    }
  }

  /** SetNeighbors: the rows on edge `e` of some of the given rows. */
  method SetNeighbors(db: Db, e: Edge, rows: seq<Row>) returns (from: seq<Row>)
    requires WellFormed(db)
    ensures Candidates(db, e.Target(), from)
    ensures forall c :: c in from <==> c in Table(db, e.Target()) && exists p :: p in rows && Related(db, e, p, c)
  {
    var table := Table(db, e.Target());
    TableCandidates(db, e.Target());
    from := [];
    var i := 0;
    while i < |table|
      invariant 0 <= i <= |table|
      invariant Distinct(from)
      invariant forall c :: c in from <==> c in table[..i] && exists p :: p in rows && Related(db, e, p, c)
    {
      var near := IsNeighbor(db, e, rows, table[i]);
      TakeSnoc(table, i);
      assert table[..i + 1] == table[..i] + [table[i]];
      if near {
        SnocDistinct(from, table[i]);
        from := from + [table[i]];
      }
      i := i + 1;
    }
    assert table[..i] == table;
  }

  method IsNeighbor(db: Db, e: Edge, rows: seq<Row>, c: Row) returns (b: bool)
    ensures b <==> exists p :: p in rows && Related(db, e, p, c)
  {
    var i := 0;
    while i < |rows|
      invariant 0 <= i <= |rows|
      invariant forall k :: 0 <= k < i ==> !Related(db, e, rows[k], c)
    {
      var near := AreRelated(db, e, rows[i], c);
      if near {
        return true;
      }
      i := i + 1;
    }
    return false;
  }

  method AreRelated(db: Db, e: Edge, p: Row, c: Row) returns (b: bool)
    ensures b <==> Related(db, e, p, c)
  {
    match e.Rel()
    case M2O(fk) => b := IdOf(c) == Get(p, fk);
    case O2M(fk) => b := Get(c, fk) == IdOf(p);
    case M2M(t, outCol, inCol) =>
      var joins := Table(db, t);
      var i := 0;
      while i < |joins|
        invariant 0 <= i <= |joins|
        invariant forall k :: 0 <= k < i ==> !(Get(joins[k], outCol) == IdOf(p) && Get(joins[k], inCol) == IdOf(c))
      {
        if Get(joins[i], outCol) == IdOf(p) && Get(joins[i], inCol) == IdOf(c) {
          assert joins[i] in joins;
          return true;
        }
        i := i + 1;
      }
      return false;
  }

  lemma TableCandidates(db: Db, typ: EntityType)
    requires WellFormed(db)
    ensures Candidates(db, typ, Table(db, typ))
  {
  }
}
