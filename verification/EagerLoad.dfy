/** The eager-loading engine: run a query, scan its rows, then load every requested edge of the
    whole batch with one query each, level by level. */
module EagerLoad {
  import opened Seqs
  import opened Schema
  import opened Store
  import opened Builder
  import opened Codec
  import opened Traversal
  import opened Loading
  import opened Stitch

  datatype Result<+T> = Ok(value: T) | Err(error: Error)

  /** A selected field that is no column, or a query the store did not answer. */
  datatype Error = InvalidField(column: Column) | StoreFailed

  function ErrorOf<T>(r: Result<T>): Option<Error> {
    if r.Ok? then None else Some(r.error)
  }

  /** An invalid field is reported exactly if there is one to blame, and it is that one. */
  ghost predicate Explains(err: Option<Error>, blame: Option<Column>) {
    blame == if err.Some? && err.value.InvalidField? then Some(err.value.column) else None
  }

  // ---------------------------------------------------------------- column projection

  ghost predicate IdFirst(cols: seq<Column>) {
    cols != [] && cols[0] == Id && forall i :: 0 < i < |cols| ==> cols[i] != Id
  }

  /** querySpec: the columns of the SELECT. The id comes first and only once, every selected field
      is read, and so is the foreign key of every requested many-to-one edge. */
  method QuerySpec(typ: EntityType, fields: seq<Column>, wanted: set<Edge>) returns (cols: seq<Column>)
    requires forall e :: e in wanted ==> e.Owner() == typ
    ensures IdFirst(cols)
    ensures Elems(cols) == ColumnSet(typ, fields, wanted)
    ensures fields == [] ==> cols == Columns(typ)
    ensures fields != [] ==> forall c :: c in cols <==>
      c == Id || c in fields || exists e :: e in wanted && e.Rel() == M2O(c)
    ensures ValidFields(typ, fields) ==> ValidFields(typ, cols)
  {
    if |fields| == 0 {
      return Columns(typ);
    }
    cols := [Id];
    var i := 0;
    while i < |fields|
      invariant 0 <= i <= |fields|
      invariant IdFirst(cols)
      invariant Elems(cols) == {Id} + Elems(fields[..i])
    {
      TakeSnoc(fields, i);
      if fields[i] != Id {
        ElemsSnoc(cols, fields[i]);
        cols := cols + [fields[i]];
      }
      i := i + 1;
    }
    assert fields[..i] == fields;
    cols := AddForeignKeys(typ, cols, wanted);
    SelectionMembers(typ, fields, wanted, cols);
    if ValidFields(typ, fields) {
      SelectionValid(typ, fields, wanted, cols);
    }
  }

  lemma SelectionMembers(typ: EntityType, fields: seq<Column>, wanted: set<Edge>, cols: seq<Column>)
    requires fields != [] && Elems(cols) == ColumnSet(typ, fields, wanted)
    ensures forall c :: c in cols <==> c == Id || c in fields || exists e :: e in wanted && e.Rel() == M2O(c)
  {
    forall c ensures c in cols <==> c == Id || c in fields || exists e :: e in wanted && e.Rel() == M2O(c) {
      assert c in cols <==> c in Elems(cols);
      if e :| e in wanted && e.Rel().M2O? && c == e.Rel().fk {
        assert e.Rel() == M2O(c);
      }
    }
  }

  lemma SelectionValid(typ: EntityType, fields: seq<Column>, wanted: set<Edge>, cols: seq<Column>)
    requires ValidFields(typ, fields) && forall e :: e in wanted ==> e.Owner() == typ
    requires fields != [] && Elems(cols) == ColumnSet(typ, fields, wanted)
    ensures ValidFields(typ, cols)
  {
    forall c | c in cols ensures c in Columns(typ) {
      assert c in Elems(cols) && Columns(typ)[0] == Id;
      if e :| e in wanted && e.Rel().M2O? && c == e.Rel().fk {
        EdgeColumns(e);
      }
    }
  }

  /** AddColumnOnce for the foreign key of every requested many-to-one edge. */
  method AddForeignKeys(typ: EntityType, cols: seq<Column>, wanted: set<Edge>) returns (r: seq<Column>)
    requires IdFirst(cols) && forall e :: e in wanted ==> e.Owner() == typ
    ensures IdFirst(r)
    ensures Elems(r) == Elems(cols) + set e | e in wanted && e.Rel().M2O? :: e.Rel().fk
  {
    var edges := EdgesOf(typ);
    r := cols;
    var i := 0;
    while i < |edges|
      invariant 0 <= i <= |edges|
      invariant IdFirst(r)
      invariant Elems(r) == Elems(cols) + ForcedKeys(wanted, edges[..i])
    {
      EdgeColumns(edges[i]);
      ForcedStep(wanted, edges, i);
      if edges[i] in wanted && edges[i].Rel().M2O? && edges[i].Rel().fk !in r {
        ElemsSnoc(r, edges[i].Rel().fk);
        r := r + [edges[i].Rel().fk];
      }
      i := i + 1;
    }
    assert edges[..i] == edges;
    EdgesOfOwner(typ);
  }

  ghost function ForcedKeys(wanted: set<Edge>, edges: seq<Edge>): set<Column> {
    set e | e in wanted && e in edges && e.Rel().M2O? :: e.Rel().fk
  }

  lemma ForcedStep(wanted: set<Edge>, edges: seq<Edge>, i: nat)
    requires i < |edges|
    ensures ForcedKeys(wanted, edges[..i + 1])
            == ForcedKeys(wanted, edges[..i])
               + if edges[i] in wanted && edges[i].Rel().M2O? then {edges[i].Rel().fk} else {}
  {
    assert edges[..i + 1] == edges[..i] + [edges[i]];
  }

  // ---------------------------------------------------------------- scanning rows

  /** The Assign interceptor of a many-to-many load. */
  class JoinHook {
    const byId: map<Value, Node>
    var nids: map<Value, set<Node>>

    constructor (byId: map<Value, Node>)
      ensures this.byId == byId && nids == map[]
    {
      this.byId, nids := byId, map[];
    }

    /** Strips the join column off one row and records the link. Only the first row of a child
        creates a struct for it. */
    method Assign(values: seq<Value>) returns (create: bool)
      requires |values| >= 2 && values[0] in byId
      modifies this`nids
      ensures create <==> values[1] !in old(nids)
      ensures nids == old(nids)[values[1] :=
        (if values[1] in old(nids) then old(nids)[values[1]] else {}) + {byId[values[0]]}]
    {
      var outValue, inValue := values[0], values[1];
      if inValue !in nids {
        assert {byId[outValue]} == {} + {byId[outValue]};
        nids := nids[inValue := {byId[outValue]}];
        return true;
      }
      nids := nids[inValue := nids[inValue] + {byId[outValue]}];
      return false;
    }
  }

  /** The distinct rows among the first `n` hits, in order of first appearance. */
  ghost function FirstTo(hits: seq<Hit>, n: nat): seq<Row>
    requires n <= |hits|
  {
    if n == 0 then []
    else
      var seen := FirstTo(hits, n - 1);
      if hits[n - 1].row in seen then seen else seen + [hits[n - 1].row]
  }

  lemma {:induction false} FirstMembers(hits: seq<Hit>, n: nat)
    requires n <= |hits|
    ensures forall r :: r in FirstTo(hits, n) <==> exists h :: 0 <= h < n && hits[h].row == r
    ensures Distinct(FirstTo(hits, n))
  {
    if n == 0 {
    } else {
      FirstMembers(hits, n - 1);
    }
  }

  /** What the interceptor has recorded after `n` rows. */
  ghost function Links(hits: seq<Hit>, n: nat, byId: map<Value, Node>): map<Value, set<Node>>
    requires n <= |hits| && forall h :: 0 <= h < n ==> hits[h].out in byId
  {
    if n == 0 then map[]
    else
      var nids, v := Links(hits, n - 1, byId), IdOf(hits[n - 1].row);
      nids[v := (if v in nids then nids[v] else {}) + {byId[hits[n - 1].out]}]
  }

  /** Those are exactly the links the rows announce, whatever their order and repetitions. */
  lemma {:induction false} LinksAnnounced(hits: seq<Hit>, n: nat, byId: map<Value, Node>)
    requires n <= |hits| && forall h :: 0 <= h < n ==> hits[h].out in byId
    ensures forall v :: v in Links(hits, n, byId) <==> exists h :: 0 <= h < n && IdOf(hits[h].row) == v
    ensures forall v, p :: v in Links(hits, n, byId) ==>
      (p in Links(hits, n, byId)[v] <==> exists h :: 0 <= h < n && IdOf(hits[h].row) == v && byId[hits[h].out] == p)
  {
    if n == 0 {
    } else {
      LinksAnnounced(hits, n - 1, byId);
    }
  }

  /** One row as the driver returns it: the join column first when the query joins. */
  function RawRow(h: Hit, cols: seq<Column>, joined: bool): seq<Value> {
    (if joined then [h.out] else []) + seq(|cols|, i requires 0 <= i < |cols| => Get(h.row, cols[i]))
  }

  /** One row, without the join column, through scanValues and assignValues into a new struct; their
      errors cannot occur. */
  method Scan(typ: EntityType, wanted: set<Edge>, cols: seq<Column>, values: seq<Value>, ghost src: Row)
    returns (node: Node)
    requires |values| == |cols| && forall i :: 0 <= i < |cols| ==> values[i] == Get(src, cols[i])
    requires RowTyped(typ, src) && ValidFields(typ, cols)
    ensures fresh(node) && NewNode(node, typ, wanted, Elems(cols), src)
  {
    var read := ReadRow(typ, cols, values, src);
    assert Elems(cols) * Elems(Columns(typ)) == Elems(cols);
    node := new Node(typ, wanted, read.fields, src);
  }

  ghost predicate Decoded(n: Node, typ: EntityType, wanted: set<Edge>, cols: set<Column>, src: Row) {
    n.typ == typ && n.src == src && n.fields == Decode(src, cols) && n.loadedTypes == wanted
  }

  ghost predicate NewNode(n: Node, typ: EntityType, wanted: set<Edge>, cols: set<Column>, src: Row)
    reads n
  {
    Decoded(n, typ, wanted, cols, src) && n.one == map[] && n.many == map[]
  }

  ghost predicate Indexes(hook: JoinHook, hits: seq<Hit>) {
    forall i :: 0 <= i < |hits| ==> hits[i].out in hook.byId
  }

  /** A query runs with an interceptor exactly if a many-to-many load joined the ids it indexes. */
  ghost predicate Hooked(preds: seq<Clause>, hook: JoinHook?)
    reads hook
  {
    if hook == null then OnlyFilters(preds)
    else HasJoin(preds) && hook.nids == map[] && forall v :: v in preds[|preds| - 1].ids ==> v in hook.byId
  }

  /** Rows with the same id are the same row, and only a join repeats a row. */
  ghost predicate Rows(hits: seq<Hit>, joined: bool) {
    forall i, j :: 0 <= i < j < |hits| && IdOf(hits[i].row) == IdOf(hits[j].row)
      ==> joined && hits[i].row == hits[j].row
  }

  /** The Assign callback for one row: a struct, unless the row was seen before. */
  method AssignRow(typ: EntityType, wanted: set<Edge>, cols: seq<Column>, hits: seq<Hit>, i: nat, hook: JoinHook?)
    returns (node: Node?)
    requires i < |hits| && IdFirst(cols) && Rows(hits, hook != null)
    requires ValidFields(typ, cols) && RowTyped(typ, hits[i].row)
    requires hook != null ==> Indexes(hook, hits) && hook.nids == Links(hits, i, hook.byId)
    modifies hook
    ensures node == null <==> hits[i].row in FirstTo(hits, i)
    ensures node != null ==> fresh(node) && NewNode(node, typ, wanted, Elems(cols), hits[i].row)
    ensures hook != null ==> hook.nids == Links(hits, i + 1, hook.byId)
  {
    var values := RawRow(hits[i], cols, hook != null);
    FirstMembers(hits, i);
    if hook != null {
      LinksAnnounced(hits, i, hook.byId);
      var create := hook.Assign(values);
      if !create {
        return null;
      }
      values := values[1..];
    }
    node := Scan(typ, wanted, cols, values, hits[i].row);
  }

  /** The Assign callback over the row stream: one struct per distinct row, in order of first
      appearance; with an interceptor, every row's link is recorded as well. */
  method Collect(typ: EntityType, wanted: set<Edge>, cols: seq<Column>, hits: seq<Hit>, hook: JoinHook?)
    returns (nodes: seq<Node>)
    requires IdFirst(cols) && Rows(hits, hook != null)
    requires ValidFields(typ, cols) && forall i :: 0 <= i < |hits| ==> RowTyped(typ, hits[i].row)
    requires hook != null ==> hook.nids == map[] && Indexes(hook, hits)
    modifies hook
    ensures |nodes| == |FirstTo(hits, |hits|)|
    ensures forall i :: 0 <= i < |nodes| ==>
      fresh(nodes[i]) && NewNode(nodes[i], typ, wanted, Elems(cols), FirstTo(hits, |hits|)[i])
    ensures hook != null ==> hook.nids == Links(hits, |hits|, hook.byId)
  {
    hide RowTyped, ValidFields, IdFirst, Rows, NewNode;
    nodes := [];
    var i := 0;
    while i < |hits|
      invariant 0 <= i <= |hits|
      invariant |nodes| == |FirstTo(hits, i)|
      invariant forall k :: 0 <= k < |nodes| ==>
        fresh(nodes[k]) && NewNode(nodes[k], typ, wanted, Elems(cols), FirstTo(hits, i)[k])
      invariant hook != null ==> hook.nids == Links(hits, i, hook.byId)
    {
      var node := AssignRow(typ, wanted, cols, hits, i, hook);
      if node != null {
        nodes := nodes + [node];
      }
      i := i + 1;
    }
  }

  // ---------------------------------------------------------------- the recursion

  /** How many of the candidate rows a query without LIMIT and OFFSET answers. */
  ghost function AnswerSize(db: Db, from: seq<Row>, plan: Plan): nat {
    |AllHits(db, from, plan.preds)|
  }

  /** The answer to a query without a join: rows that pass, and all of them exactly if LIMIT and
      OFFSET cut nothing. */
  ghost predicate Answered(db: Db, from: seq<Row>, plan: Plan, nodes: seq<Node>) {
    && (forall n :: n in nodes ==> n.src in from && Passes(plan.preds, n.src))
    && (Fits(AnswerSize(db, from, plan), plan.limit, plan.offset) <==>
          forall r :: r in from && Passes(plan.preds, r) ==> r in Srcs(nodes))
  }

  /** One struct per distinct row of the stream, in order of first appearance. */
  ghost predicate FromStream(nodes: seq<Node>, hits: seq<Hit>) {
    && |nodes| == |FirstTo(hits, |hits|)|
    && forall i :: 0 <= i < |nodes| ==> nodes[i].src == FirstTo(hits, |hits|)[i]
  }

  /** The row stream of a query. */
  ghost predicate Stream(db: Db, from: seq<Row>, plan: Plan, hits: seq<Hit>) {
    IsAnswer(hits, AllHits(db, from, plan.preds), plan.limit, plan.offset)
  }

  lemma StreamHits(db: Db, from: seq<Row>, plan: Plan, hits: seq<Hit>)
    requires Stream(db, from, plan, hits)
    ensures forall h :: h in hits ==> IsHit(db, from, plan.preds, h)
  {
    AnswerMembers(hits, AllHits(db, from, plan.preds), plan.limit, plan.offset);
    AllHitsMembers(db, from, plan.preds);
  }

  /** What a builder must satisfy to be executed. */
  ghost predicate Runnable(q: Query)
    reads q, q.Repr
  {
    q.Valid() && WellTyped(q.tree) && ApiPreds(q.tree)
  }

  /** All: validate the selected fields and evaluate the path, then run the query and its eager
      loads. `from` are the rows the path leads to. However many rows there are, it issues at most
      one query for the builder and one for each edge requested below it, and it reports a failure
      of the store exactly if the last of them failed. It reports an invalid field exactly if there is
      one along the path, or else in the tree as far as there are rows to load edges for, and names
      the first one in the order of loading. */
  method All(db: Db, conn: Connection, q: Query) returns (r: Result<seq<Node>>, ghost g: Load, ghost from: seq<Row>)
    requires WellFormed(db) && Runnable(q) && PathFilters(q)
    modifies q.Repr, conn`asked
    ensures q.prev == null ==> from == Table(db, q.typ)
    ensures old(PathBad(q)).None? ==>
      Elems(from) <= old(Reach(db, q)) && (old(PathUncut(q)) ==> Elems(from) == old(Reach(db, q)))
    ensures r.Ok? ==> g.nodes == r.value
    ensures forall n :: n in Objects(g) ==> fresh(n) && allocated(n)
    ensures r.Ok? ==> Loaded(db, g, old(q.tree), old(q.tree).fields)
    ensures r.Ok? || g.nodes != [] ==> Answered(db, from, old(q.tree), g.nodes)
    ensures Backed(db, g, old(q.tree))
    ensures Explains(ErrorOf(r), if old(PathBad(q)).Some? then old(PathBad(q)) else Blame(g, old(q.tree)))
    ensures AllFieldsValid(old(q.tree)) && old(PathBad(q)).None? ==> r.Ok? || r.error == StoreFailed
    ensures conn.Heard(old(conn.asked), Queries(old(q.tree)), r == Err(StoreFailed))
    decreases q.Repr, 2
  {
    hide Loaded, Answered, Stream, FromStream, Blame;
    ChainAllocated(q);
    g := Load([], map[]);
    var bad, candidates := PrepareQuery(db, q);
    from := candidates;
    if bad.Some? {
      return Err(InvalidField(bad.value)), g, from;
    }
    ghost var hits;
    q.Unchanged();
    r, g, hits := SqlAll(db, conn, q, candidates, null);
    if r.Ok? || g.nodes != [] {
      StreamAnswers(db, from, old(q.tree), g.nodes, hits);
    }
    if AllFieldsValid(old(q.tree)) {
      ValidUnblamed(g, old(q.tree));
    }
  }

  lemma StreamNodes(nodes: seq<Node>, hits: seq<Hit>)
    requires FromStream(nodes, hits)
    ensures forall n :: n in nodes ==> exists h :: h in hits && h.row == n.src
    ensures forall h :: h in hits ==> h.row in Srcs(nodes)
    ensures Distinct(FirstTo(hits, |hits|))
  {
    FirstMembers(hits, |hits|);
    forall n | n in nodes ensures exists h :: h in hits && h.row == n.src {
      var i :| 0 <= i < |nodes| && nodes[i] == n;
      assert n.src in FirstTo(hits, |hits|);
      var k :| 0 <= k < |hits| && hits[k].row == n.src;
      assert hits[k] in hits;
    }
    forall h | h in hits ensures h.row in Srcs(nodes) {
      assert h.row in FirstTo(hits, |hits|);
      var i :| 0 <= i < |nodes| && FirstTo(hits, |hits|)[i] == h.row;
      assert nodes[i] in nodes;
    }
  }

  lemma StreamAnswers(db: Db, from: seq<Row>, plan: Plan, nodes: seq<Node>, hits: seq<Hit>)
    requires Candidates(db, plan.typ, from) && OnlyFilters(plan.preds)
    requires Stream(db, from, plan, hits) && FromStream(nodes, hits)
    ensures Answered(db, from, plan, nodes)
  {
    hide Stream, FromStream, IsHit, Fits;
    StreamNodes(nodes, hits);
    StreamHits(db, from, plan, hits);
    forall n | n in nodes ensures n.src in from && Passes(plan.preds, n.src) {
      var h :| h in hits && h.row == n.src;
      HitPasses(db, from, plan.preds, h);
    }
    if Fits(AnswerSize(db, from, plan), plan.limit, plan.offset) {
      StreamWhole(db, from, plan, hits);
      forall r | r in from && Passes(plan.preds, r) ensures r in Srcs(nodes) {
        HitPasses(db, from, plan.preds, Hit(Null, r));
      }
    } else {
      var h := StreamLacks(db, from, plan, hits);
      HitPasses(db, from, plan.preds, h);
      if h.row in Srcs(nodes) {
        var n :| n in nodes && n.src == h.row;
        var k :| k in hits && k.row == n.src;
        HitPasses(db, from, plan.preds, k);
      }
    }
  }

  lemma HitPasses(db: Db, from: seq<Row>, preds: seq<Clause>, h: Hit)
    requires !HasJoin(preds)
    ensures IsHit(db, from, preds, h) <==> h.row in from && Passes(preds, h.row) && h.out == Null
  {
  }

  /** A stream that was not cut is everything. */
  lemma StreamWhole(db: Db, from: seq<Row>, plan: Plan, hits: seq<Hit>)
    requires Stream(db, from, plan, hits) && Fits(AnswerSize(db, from, plan), plan.limit, plan.offset)
    ensures forall h :: IsHit(db, from, plan.preds, h) ==> h in hits
  {
    AnswerMembers(hits, AllHits(db, from, plan.preds), plan.limit, plan.offset);
    AllHitsMembers(db, from, plan.preds);
  }

  /** A stream that was cut lacks something. */
  lemma StreamLacks(db: Db, from: seq<Row>, plan: Plan, hits: seq<Hit>) returns (h: Hit)
    requires Candidates(db, plan.typ, from) && UniqueJoin(db, plan.preds)
    requires Stream(db, from, plan, hits) && !Fits(AnswerSize(db, from, plan), plan.limit, plan.offset)
    ensures IsHit(db, from, plan.preds, h) && h !in hits
  {
    HitsDistinct(db, from, |from|, plan.preds);
    AnswerLacks(hits, AllHits(db, from, plan.preds), plan.limit, plan.offset);
    h :| h in AllHits(db, from, plan.preds) && h !in hits;
    AllHitsMembers(db, from, plan.preds);
  }

  /** sqlAll: run the query, scan the rows, then load the requested edges of the whole batch. */
  method SqlAll(db: Db, conn: Connection, q: Query, from: seq<Row>, hook: JoinHook?)
    returns (r: Result<seq<Node>>, ghost g: Load, ghost hits: seq<Hit>)
    requires WellFormed(db) && Candidates(db, q.typ, from) && q.Valid() && WellTyped(q.tree)
    requires forall e :: e in q.tree.withs ==> ApiPreds(q.tree.withs[e])
    requires Hooked(q.preds, hook) && ValidFields(q.typ, q.fields)
    modifies q.Repr, hook, conn`asked
    ensures r.Ok? || g.nodes != [] ==> Stream(db, from, old(q.tree), hits) && FromStream(g.nodes, hits)
    ensures r.Ok? && hook != null ==> Indexes(hook, hits) && hook.nids == Links(hits, |hits|, hook.byId)
    ensures r.Ok? ==> g.nodes == r.value
    ensures forall n :: n in Objects(g) ==> fresh(n) && allocated(n)
    ensures r.Ok? ==> Loaded(db, g, old(q.tree), old(q.tree).fields)
    ensures Backed(db, g, old(q.tree)) && Explains(ErrorOf(r), Blame(g, old(q.tree)))
    ensures conn.Heard(old(conn.asked), Queries(old(q.tree)), r == Err(StoreFailed))
    decreases q.Repr, 1
  {
    hide Loaded, Stream, FromStream, Links, Indexes, Scanned, Hooked, DistinctKeys, WellFormed, ApiPreds;
    hide BlameEdges;
    var batch;
    batch, hits := FetchBatch(db, conn, q, from, hook);
    if batch.None? {
      return Err(StoreFailed), Load([], map[]), hits;
    }
    q.Unchanged();
    label Fetched:
    r, g := LoadEdges(db, conn, q, batch.value);
    conn.Then@Fetched(old(conn.asked), 1, EdgeQueries(old(q.tree), EdgesOf(q.typ)), r == Err(StoreFailed));
  }

  /** The first half of sqlAll: run the query, unless the store fails, and scan its rows into a batch
      of new structs. */
  method FetchBatch(db: Db, conn: Connection, q: Query, from: seq<Row>, hook: JoinHook?)
    returns (batch: Option<seq<Node>>, ghost hits: seq<Hit>)
    requires WellFormed(db) && Candidates(db, q.typ, from) && q.Valid() && WellTyped(q.tree)
    requires Hooked(q.preds, hook) && ValidFields(q.typ, q.fields)
    modifies hook, conn`asked
    ensures conn.Heard(old(conn.asked), 1, batch.None?)
    ensures batch.Some? ==>
      && Stream(db, from, q.tree, hits) && FromStream(batch.value, hits)
      && (hook != null ==> Indexes(hook, hits) && hook.nids == Links(hits, |hits|, hook.byId))
      && Scanned(db, batch.value, q.typ, q.fields, q.withs.Keys) && DistinctKeys(batch.value)
      && fresh(Elems(batch.value)) && forall n :: n in batch.value ==> n.one == map[] && n.many == map[]
  {
    hide Stream, Links, RowTyped, Scanned, DistinctKeys, Rows, IdFirst, ColumnSet, FirstTo;
    var answered := conn.Ask();
    if !answered {
      return None, [];
    }
    var cols := QuerySpec(q.typ, q.fields, q.withs.Keys);
    var rows := Fetch(db, q, from, hook);
    StreamTyped(db, from, q.tree, rows);
    var nodes := Collect(q.typ, q.withs.Keys, cols, rows, hook);
    hits := rows;
    BatchScanned(db, from, q.tree, nodes, hits, cols);
    batch := Some(nodes);
  }

  /** The query itself: the candidate rows that pass, joined if the builder joins. */
  method Fetch(db: Db, q: Query, from: seq<Row>, ghost hook: JoinHook?) returns (hits: seq<Hit>)
    requires WellFormed(db) && Candidates(db, q.typ, from) && q.Valid() && Hooked(q.preds, hook)
    ensures Stream(db, from, q.tree, hits) && Rows(hits, hook != null)
    ensures hook != null ==> Indexes(hook, hits)
  {
    hide IsAnswer, AllHits, WindowSize, WellFormed, Rows, Hooked;
    hits := QueryNodes(db, from, q.preds, q.limit, q.offset);
    StreamRows(db, from, q.tree, hits, hook);
  }

  lemma StreamRows(db: Db, from: seq<Row>, plan: Plan, hits: seq<Hit>, hook: JoinHook?)
    requires WellFormed(db) && Candidates(db, plan.typ, from)
    requires Stream(db, from, plan, hits) && Hooked(plan.preds, hook)
    ensures Rows(hits, hook != null)
    ensures hook != null ==> Indexes(hook, hits)
  {
    hide Stream;
    StreamHits(db, from, plan, hits);
    if hook == null {
      OncePerRow(db, from, plan, hits);
    }
    forall i, j | 0 <= i < j < |hits| && IdOf(hits[i].row) == IdOf(hits[j].row)
      ensures hook != null && hits[i].row == hits[j].row
    {
      assert hits[i] in hits && hits[j] in hits;
      SameId(Table(db, plan.typ), hits[i].row, hits[j].row);
    }
    if hook != null {
      forall i | 0 <= i < |hits| ensures hits[i].out in hook.byId {
        assert hits[i] in hits;
      }
    }
  }

  lemma StreamTyped(db: Db, from: seq<Row>, plan: Plan, hits: seq<Hit>)
    requires WellFormed(db) && Candidates(db, plan.typ, from) && Stream(db, from, plan, hits)
    ensures forall i :: 0 <= i < |hits| ==> RowTyped(plan.typ, hits[i].row)
  {
    hide RowTyped;
    StreamHits(db, from, plan, hits);
    forall i | 0 <= i < |hits| ensures RowTyped(plan.typ, hits[i].row) {
      assert hits[i] in hits;
    }
  }

  lemma OncePerRow(db: Db, from: seq<Row>, plan: Plan, hits: seq<Hit>)
    requires Candidates(db, plan.typ, from) && Stream(db, from, plan, hits) && !HasJoin(plan.preds)
    ensures Distinct(hits)
  {
    HitsDistinct(db, from, |from|, plan.preds);
    SubMembers(hits, AllHits(db, from, plan.preds));
  }

  lemma BatchScanned(db: Db, from: seq<Row>, plan: Plan, nodes: seq<Node>, hits: seq<Hit>, cols: seq<Column>)
    requires WellFormed(db) && Candidates(db, plan.typ, from) && Stream(db, from, plan, hits) && FromStream(nodes, hits)
    requires Elems(cols) == ColumnSet(plan.typ, plan.fields, plan.withs.Keys)
    requires forall i :: 0 <= i < |nodes| ==>
      Decoded(nodes[i], plan.typ, plan.withs.Keys, Elems(cols), FirstTo(hits, |hits|)[i])
    ensures Scanned(db, nodes, plan.typ, plan.fields, plan.withs.Keys) && DistinctKeys(nodes)
  {
    StreamNodes(nodes, hits);
    StreamHits(db, from, plan, hits);
    forall i, j | 0 <= i < j < |nodes| ensures IdOf(nodes[i].src) != IdOf(nodes[j].src) {
      assert nodes[i] in nodes && nodes[j] in nodes;
      if IdOf(nodes[i].src) == IdOf(nodes[j].src) {
        SameId(Table(db, plan.typ), nodes[i].src, nodes[j].src);
      }
    }
  }

  /** The second half of sqlAll: one load per requested edge, in schema order; none for an empty
      batch. */
  method LoadEdges(db: Db, conn: Connection, q: Query, nodes: seq<Node>) returns (r: Result<seq<Node>>, ghost g: Load)
    requires WellFormed(db) && q.Valid() && WellTyped(q.tree)
    requires forall e :: e in q.tree.withs ==> ApiPreds(q.tree.withs[e])
    requires Scanned(db, nodes, q.typ, q.fields, q.withs.Keys) && DistinctKeys(nodes)
    requires forall n :: n in nodes ==> n.one == map[] && n.many == map[]
    modifies q.Repr, Elems(nodes), conn`asked
    ensures g.nodes == nodes && forall n :: n in KidObjects(g) ==> fresh(n) && allocated(n)
    ensures r.Ok? ==> r.value == nodes && Loaded(db, g, old(q.tree), old(q.tree).fields)
    ensures Backed(db, g, old(q.tree))
    ensures Explains(ErrorOf(r), if nodes == [] then None else BlameEdges(g, old(q.tree), EdgesOf(q.typ)))
    ensures conn.Heard(old(conn.asked), EdgeQueries(old(q.tree), EdgesOf(old(q.tree).typ)), r == Err(StoreFailed))
    decreases q.Repr, 0, 2
  {
    ghost var plan := q.tree;
    g := Load(nodes, map[]);
    NothingLoaded(db, g, plan);
    hide Loaded, Scanned, ApiPreds, Progress, Ready, Separate, Owned, BlameEdges;
    if |nodes| == 0 {
      return Ok(nodes), g;
    }
    EdgesOfOwner(q.typ);
    ghost var owned := map e | e in q.withs :: q.withs[e].Repr;
    EdgeBuilders(q, Elems(EdgesOf(q.typ)), owned);
    var err;
    err, g := LoadFrom(db, conn, q, EdgesOf(q.typ), nodes, g, plan, owned);
    if err.Some? {
      return Err(err.value), g;
    }
    AllLoaded(db, g, plan);
    r := Ok(nodes);
  }

  /** Before the first edge load; and that is all there is to do for an empty batch. */
  lemma NothingLoaded(db: Db, g: Load, plan: Plan)
    requires g.kids == map[]
    requires Scanned(db, g.nodes, plan.typ, plan.fields, plan.withs.Keys) && DistinctKeys(g.nodes)
    requires forall n :: n in g.nodes ==> n.one == map[] && n.many == map[]
    ensures KidObjects(g) == {} && Progress(db, plan, g)
    ensures g.nodes == [] ==> Loaded(db, g, plan, plan.fields)
  {
  }

  /** After the last one. */
  lemma AllLoaded(db: Db, g: Load, plan: Plan)
    requires g.nodes != [] && g.kids.Keys == plan.withs.Keys && Progress(db, plan, g)
    requires Scanned(db, g.nodes, plan.typ, plan.fields, plan.withs.Keys) && DistinctKeys(g.nodes)
    ensures Loaded(db, g, plan, plan.fields)
  {
  }

  /** The edge builders below a valid builder are ready and separate. */
  lemma EdgeBuilders(q: Query, edges: set<Edge>, owned: map<Edge, set<Query>>)
    requires q.Valid() && owned == map e | e in q.withs :: q.withs[e].Repr
    ensures Ready(q, q.tree, owned, edges) && Separate(q, owned)
    ensures Owned(owned, edges) <= q.Repr
  {
  }

  ghost function Owned(owned: map<Edge, set<Query>>, todo: set<Edge>): set<Query> {
    set e, q | e in todo && e in owned && q in owned[e] :: q
  }

  lemma OwnedMore(owned: map<Edge, set<Query>>, a: set<Edge>, b: set<Edge>)
    requires a <= b
    ensures Owned(owned, a) <= Owned(owned, b)
  {
  }

  /** The edge queries still to be executed are as the builder left them; `owned` are the
      separate sets of builders below them. */
  ghost predicate Ready(q: Query, plan: Plan, owned: map<Edge, set<Query>>, todo: set<Edge>)
    reads q, Owned(owned, todo)
  {
    && q.withs.Keys == plan.withs.Keys == owned.Keys
    && forall e :: e in todo && e in owned ==>
         assert owned[e] <= Owned(owned, todo);
         q.withs[e] in owned[e] && q.withs[e].Repr == owned[e]
         && q.withs[e].tree == plan.withs[e] && q.withs[e].prev == null && q.withs[e].Valid()
  }

  ghost predicate Separate(q: Query, owned: map<Edge, set<Query>>)
    reads q
  {
    && (forall e :: e in owned ==> owned[e] < q.Repr && q !in owned[e])
    && (forall e, f :: e in owned && f in owned && e != f ==> owned[e] !! owned[f])
  }

  lemma ReadyLess(q: Query, plan: Plan, owned: map<Edge, set<Query>>, e: Edge, rest: set<Edge>)
    requires Ready(q, plan, owned, rest + {e}) && Separate(q, owned) && e !in rest
    ensures Ready(q, plan, owned, rest)
    ensures e in owned ==> owned[e] !! Owned(owned, rest)
    ensures forall o :: o in Owned(owned, rest) ==> allocated(o)
  {
    assert Owned(owned, rest) <= Owned(owned, rest + {e});
  }

  lemma ReadyOne(q: Query, plan: Plan, owned: map<Edge, set<Query>>, e: Edge, todo: set<Edge>)
    requires Ready(q, plan, owned, todo) && Separate(q, owned) && e in todo
    ensures q.withs.Keys == plan.withs.Keys == owned.Keys
    ensures e in owned ==>
      && owned[e] <= Owned(owned, {e}) && owned[e] < q.Repr && q !in owned[e]
      && q.withs[e] in owned[e] && q.withs[e].Repr == owned[e]
      && q.withs[e].tree == plan.withs[e] && q.withs[e].prev == null && q.withs[e].Valid()
  {
  }

  lemma NothingToExplain(g: Load, plan: Plan)
    ensures Explains(None, BlameEdges(g, plan, []))
  {
  }

  /** The first edge fails, and the rest was not loaded. */
  lemma FirstExplains(err: Option<Error>, g: Load, plan: Plan, edges: seq<Edge>)
    requires edges != [] && (edges[0] in plan.withs ==> edges[0] in g.kids)
    requires Elems(edges[1..]) !! g.kids.Keys
    requires Explains(err, if edges[0] in plan.withs then Blame(g.kids[edges[0]], plan.withs[edges[0]]) else None)
    ensures Explains(err, BlameEdges(g, plan, edges))
  {
    hide Blame;
    assert forall e :: e in edges[1..] ==> e in Elems(edges[1..]);
    UnloadedUnblamed(g, plan, edges[1..]);
  }

  /** The first edge is loaded, and the rest explains the outcome. */
  lemma RestExplains(err: Option<Error>, g: Load, plan: Plan, edges: seq<Edge>)
    requires edges != [] && (edges[0] in plan.withs ==> edges[0] in g.kids)
    requires Explains(None, if edges[0] in plan.withs then Blame(g.kids[edges[0]], plan.withs[edges[0]]) else None)
    requires Explains(err, BlameEdges(g, plan, edges[1..]))
    ensures Explains(err, BlameEdges(g, plan, edges))
  {
    hide Blame;
  }

  method LoadFrom(db: Db, conn: Connection, q: Query, edges: seq<Edge>, nodes: seq<Node>, ghost g: Load,
                  ghost plan: Plan, ghost owned: map<Edge, set<Query>>)
    returns (err: Option<Error>, ghost all: Load)
    requires WellFormed(db) && WellTyped(plan)
    requires forall e :: e in plan.withs ==> ApiPreds(plan.withs[e])
    requires Scanned(db, nodes, plan.typ, plan.fields, plan.withs.Keys) && DistinctKeys(nodes)
    requires Distinct(edges) && Ready(q, plan, owned, Elems(edges)) && Separate(q, owned)
    requires nodes != [] && Backed(db, g, plan)
    requires g.nodes == nodes && Progress(db, plan, g) && g.kids.Keys == plan.withs.Keys - Elems(edges)
    requires forall n :: n in KidObjects(g) ==> allocated(n)
    modifies Owned(owned, Elems(edges)), Elems(nodes)`one, Elems(nodes)`many, conn`asked
    ensures all.nodes == nodes && forall n :: n in KidObjects(all) ==> allocated(n) && (n in KidObjects(g) || fresh(n))
    ensures err.None? ==> Progress(db, plan, all) && all.kids.Keys == plan.withs.Keys
    ensures Backed(db, all, plan) && Explains(err, BlameEdges(all, plan, edges))
    ensures forall f :: f in g.kids ==> f in all.kids && all.kids[f] == g.kids[f]
    ensures conn.Heard(old(conn.asked), EdgeQueries(plan, edges), err == Some(StoreFailed))
    decreases q.Repr, 0, 1, |edges|
  {
    hide Progress, Separate, Ready, Owned, Scanned, DistinctKeys, WellFormed, ApiPreds, Backed;
    hide Queries, EdgeQueries, Blame, BlameEdges, Explains, Elems, Distinct, KidObjects, WellTyped;
    ElemsNone(edges);
    EdgeQueriesStep(plan, edges);
    if |edges| == 0 {
      NothingToExplain(g, plan);
      return None, g;
    }
    var e, rest := edges[0], edges[1..];
    SplitFirst(edges);
    OwnedMore(owned, {e}, Elems(edges));
    OwnedMore(owned, Elems(rest), Elems(edges));
    ghost var first: nat := if e in plan.withs then Queries(plan.withs[e]) else 0;
    ghost var more;
    err, more := LoadRequested(db, conn, q, e, Elems(rest), nodes, g, plan, owned);
    if err.Some? {
      FirstExplains(err, more, plan, edges);
      conn.Within(old(conn.asked), first, EdgeQueries(plan, edges), err == Some(StoreFailed));
      return err, more;
    }
    label FirstLoaded:
    err, all := LoadFrom(db, conn, q, rest, nodes, more, plan, owned);
    RestExplains(err, all, plan, edges);
    conn.Then@FirstLoaded(old(conn.asked), first, EdgeQueries(plan, rest), err == Some(StoreFailed));
  }

  /** Loads one edge if it was requested, leaving the remaining edge queries alone. */
  method LoadRequested(db: Db, conn: Connection, q: Query, e: Edge, ghost rest: set<Edge>,
                       nodes: seq<Node>, ghost g: Load, ghost plan: Plan, ghost owned: map<Edge, set<Query>>)
    returns (err: Option<Error>, ghost more: Load)
    requires WellFormed(db) && WellTyped(plan)
    requires forall f :: f in plan.withs ==> ApiPreds(plan.withs[f])
    requires Scanned(db, nodes, plan.typ, plan.fields, plan.withs.Keys) && DistinctKeys(nodes)
    requires e !in rest && Ready(q, plan, owned, rest + {e}) && Separate(q, owned)
    requires g.nodes == nodes && Progress(db, plan, g) && e !in g.kids && nodes != [] && Backed(db, g, plan)
    requires forall n :: n in KidObjects(g) ==> allocated(n)
    modifies Owned(owned, {e}), Elems(nodes)`one, Elems(nodes)`many, conn`asked
    ensures more.nodes == nodes
    ensures forall n :: n in KidObjects(more) ==> allocated(n) && (n in KidObjects(g) || fresh(n))
    ensures err.None? ==> Progress(db, plan, more)
    ensures more.kids.Keys == g.kids.Keys + ({e} * plan.withs.Keys)
    ensures forall f :: f in g.kids ==> more.kids[f] == g.kids[f]
    ensures err.None? ==> Ready(q, plan, owned, rest)
    ensures Separate(q, owned) && q.Repr == old(q.Repr)
    ensures Backed(db, more, plan)
    ensures Explains(err, if e in plan.withs then Blame(more.kids[e], plan.withs[e]) else None)
    ensures conn.Heard(old(conn.asked), if e in plan.withs then Queries(plan.withs[e]) else 0, err == Some(StoreFailed))
    decreases q.Repr, 0, 0
  {
    hide Progress, Scanned, DistinctKeys, ApiPreds, WellFormed, Ready, Separate, Owned, Queries, Backed, Blame;
    hide KidObjects;
    err, more := None, g;
    ReadyLess(q, plan, owned, e, rest);
    ReadyOne(q, plan, owned, e, rest + {e});
    if e in q.withs {
      err, more := LoadNext(db, conn, q.withs[e], e, nodes, g, plan);
    }
  }

  /** Between two edge loads: what was loaded is loaded as asked. */
  ghost predicate Progress(db: Db, plan: Plan, g: Load)
    reads g.nodes, KidObjects(g)
  {
    && g.kids.Keys <= plan.withs.Keys && KidObjects(g) !! Elems(g.nodes)
    && EdgesLoaded(db, g, plan) && OnlyEdges(g.nodes, g.kids.Keys)
  }

  /** One round of that loop: load the next requested edge. */
  method LoadNext(db: Db, conn: Connection, q: Query, e: Edge, nodes: seq<Node>, ghost g: Load, ghost plan: Plan)
    returns (err: Option<Error>, ghost more: Load)
    requires WellFormed(db) && e in plan.withs && e !in g.kids && e.Owner() == plan.typ
    requires Runnable(q) && q.prev == null && q.tree == plan.withs[e] && q.typ == e.Target()
    requires g.nodes == nodes && Progress(db, plan, g) && forall n :: n in KidObjects(g) ==> allocated(n)
    requires nodes != [] && Backed(db, g, plan)
    requires Scanned(db, nodes, plan.typ, plan.fields, plan.withs.Keys) && DistinctKeys(nodes)
    modifies q.Repr, Elems(nodes)`one, Elems(nodes)`many, conn`asked
    ensures more.nodes == nodes
    ensures more.kids.Keys == g.kids.Keys + {e} && forall f :: f in g.kids ==> more.kids[f] == g.kids[f]
    ensures forall n :: n in KidObjects(more) ==> allocated(n) && (n in KidObjects(g) || fresh(n))
    ensures err.None? ==> Progress(db, plan, more)
    ensures Backed(db, more, plan) && Explains(err, Blame(more.kids[e], plan.withs[e]))
    ensures conn.Heard(old(conn.asked), Queries(plan.withs[e]), err == Some(StoreFailed))
    decreases q.Repr, 5
  {
    hide EdgeLoaded, Loaded, EdgesLoaded, Queries, Parents, Progress, WellFormed, Backed, Blame, Answering;
    ParentsReadable(db, e, nodes, plan);
    NotYetLoaded(db, plan, g, e);
    ghost var kid;
    err, kid := LoadEdge(db, conn, e, q, nodes);
    more := Load(nodes, g.kids[e := kid]);
    KidObjectsAdd(g, e, kid);
    BackedMore(db, g, plan, e, kid);
    if err.None? {
      ProgressExtended(db, g, plan, e, kid);
    }
  }

  /** One more edge on top of those loaded so far. */
  twostate lemma ProgressExtended(new db: Db, g: Load, new plan: Plan, new e: Edge, new kid: Load)
    requires forall n :: n in KidObjects(g) ==> old(allocated(n))
    requires e in plan.withs && e !in g.kids && Objects(kid) !! Elems(g.nodes)
    requires unchanged(KidObjects(g))
    requires forall n :: n in g.nodes ==> n.one - {e} == old(n.one) - {e} && n.many - {e} == old(n.many) - {e}
    requires forall n :: n in g.nodes ==> if e.Rel().M2O? then n.many == old(n.many) else n.one == old(n.one)
    requires EdgeLoaded(db, e, g.nodes, kid.nodes, plan.withs[e])
    requires Loaded(db, kid, plan.withs[e], EdgeFields(e, plan.withs[e].fields))
    ensures old(Progress(db, plan, g)) ==> Progress(db, plan, Load(g.nodes, g.kids[e := kid]))
  {
    hide EdgeLoaded, Loaded, EdgesLoaded, OnlyEdges, Objects, KidObjects, EdgeFields;
    FilledMany(db, e, g.nodes, kid.nodes, plan.withs[e]);
    if old(Progress(db, plan, g)) {
      OthersSame(g, e);
      OnlyEdgesExtended(g, g.kids.Keys, e);
      EdgesKept(db, g, plan);
      EdgesExtended(db, g, plan, e, kid);
      KidObjectsAdd(g, e, kid);
      assert g.kids[e := kid].Keys == g.kids.Keys + {e};
    }
  }

  lemma NotYetLoaded(db: Db, plan: Plan, g: Load, e: Edge)
    requires Progress(db, plan, g) && e !in g.kids
    ensures KidObjects(g) !! Elems(g.nodes) && forall n :: n in g.nodes ==> e !in n.one && e !in n.many
  {
    hide EdgesLoaded;
  }

  lemma ParentsReadable(db: Db, e: Edge, nodes: seq<Node>, plan: Plan)
    requires WellFormed(db) && e in plan.withs && e.Owner() == plan.typ
    requires Scanned(db, nodes, plan.typ, plan.fields, plan.withs.Keys) && DistinctKeys(nodes)
    ensures Parents(db, e, nodes)
  {
    hide RowTyped;
  }

  /** What a load needs of its parents: distinct ids, and the key columns it groups by. */
  ghost predicate Parents(db: Db, e: Edge, nodes: seq<Node>) {
    && DistinctKeys(nodes) && (forall n :: n in nodes ==> n.src in Table(db, e.Owner()))
    && Readable(nodes, Id) && (e.Rel().M2O? ==> Readable(nodes, e.Rel().fk))
  }

  // ---------------------------------------------------------------- the three loads

  /** loadX for edge `e`, dispatched on how the edge is stored. */
  method LoadEdge(db: Db, conn: Connection, e: Edge, q: Query, nodes: seq<Node>)
    returns (err: Option<Error>, ghost kids: Load)
    requires WellFormed(db) && Runnable(q) && q.prev == null && q.typ == e.Target()
    requires Parents(db, e, nodes)
    requires forall n :: n in nodes ==> e !in n.one && e !in n.many
    modifies q.Repr, Elems(nodes)`one, Elems(nodes)`many, conn`asked
    ensures forall n :: n in Objects(kids) ==> fresh(n) && allocated(n)
    ensures forall n :: n in nodes ==> n.one - {e} == old(n.one) - {e} && n.many - {e} == old(n.many) - {e}
    ensures forall n :: n in nodes ==> if e.Rel().M2O? then n.many == old(n.many) else n.one == old(n.one)
    ensures err.None? ==> EdgeLoaded(db, e, nodes, kids.nodes, old(q.tree))
    ensures err.None? ==> Loaded(db, kids, old(q.tree), EdgeFields(e, old(q.tree).fields))
    ensures Backed(db, kids, old(q.tree)) && (kids.nodes != [] ==> Answering(db, e, nodes, kids.nodes, old(q.tree)))
    ensures nodes != [] ==> Explains(err, Blame(kids, old(q.tree)))
    ensures conn.Heard(old(conn.asked), Queries(old(q.tree)), err == Some(StoreFailed))
    decreases q.Repr, 4
  {
    hide EdgeLoaded, Loaded, Parents, Backed, Blame, Answering;
    match e.Rel()
    case M2O(fk) => err, kids := LoadM2O(db, conn, e, fk, q, nodes);
    case O2M(fk) => err, kids := LoadO2M(db, conn, e, fk, q, nodes);
    case M2M(table, outCol, inCol) =>
      ghost var hits;
      err, kids, hits := LoadM2M(db, conn, e, table, outCol, inCol, q, nodes);
  }

  /** query.Where(test), then query.All: with a test that holds of exactly the rows on the edge
      of some parent, the answer is the one batch the edge needs. */
  method RunFiltered(db: Db, conn: Connection, e: Edge, q: Query, test: Row -> bool, ghost nodes: seq<Node>)
    returns (r: Result<seq<Node>>, ghost kids: Load)
    requires WellFormed(db) && Runnable(q) && q.prev == null && q.typ == e.Target()
    requires !e.Rel().M2M?
    requires forall c :: test(c) <==> ChildHits(db, e, Keys(e, Srcs(nodes)), c) != []
    modifies q.Repr, conn`asked
    ensures forall n :: n in Objects(kids) ==> fresh(n) && allocated(n)
    ensures r.Ok? ==> r.value == kids.nodes && Loaded(db, kids, old(q.tree), old(q.fields))
    ensures r.Ok? || kids.nodes != [] ==> Answering(db, e, nodes, kids.nodes, old(q.tree))
    ensures Backed(db, kids, old(q.tree)) && Explains(ErrorOf(r), Blame(kids, old(q.tree)))
    ensures conn.Heard(old(conn.asked), Queries(old(q.tree)), r == Err(StoreFailed))
    decreases q.Repr, 3, 0
  {
    ghost var child := q.tree;
    q.Where([Filter(test)]);
    ghost var filtered := q.tree;
    SameTree(child, filtered);
    ghost var from;
    r, kids, from := All(db, conn, q);
    SameBlame(kids, child, filtered);
    SameBacked(db, kids, child, filtered);
    if r.Ok? {
      SameLoaded(db, kids, child, filtered, child.fields);
    }
    if r.Ok? || kids.nodes != [] {
      FilteredAnswer(db, e, nodes, kids.nodes, child, test);
    }
  }

  /** The run-time checks and the load below a batch do not depend on the batch's own predicates. */
  lemma SameTree(a: Plan, b: Plan)
    requires a.typ == b.typ && a.fields == b.fields && a.withs == b.withs
    ensures WellTyped(a) == WellTyped(b) && Queries(a) == Queries(b)
  {
    SameEdgeQueries(a, b, EdgesOf(a.typ));
  }

  lemma SameLoaded(db: Db, g: Load, a: Plan, b: Plan, fields: seq<Column>)
    requires a.typ == b.typ && a.withs == b.withs
    ensures Loaded(db, g, a, fields) == Loaded(db, g, b, fields)
  {
  }

  lemma FilteredAnswer(db: Db, e: Edge, nodes: seq<Node>, kids: seq<Node>, child: Plan, test: Row -> bool)
    requires !e.Rel().M2M? && child.typ == e.Target()
    requires Answered(db, Table(db, e.Target()), child.(preds := child.preds + [Filter(test)]), kids)
    requires forall c :: test(c) <==> ChildHits(db, e, Keys(e, Srcs(nodes)), c) != []
    ensures Answering(db, e, nodes, kids, child)
  {
    hide Fits, Passes, ChildHits;
    FilterHits(db, e, |Table(db, e.Target())|, Keys(e, Srcs(nodes)), child.preds, test);
    forall c: Row
      ensures Passes(child.preds + [Filter(test)], c) <==> Passes(child.preds, c) && OnEdge(db, e, nodes, c)
    {
      ClauseAdded(child.preds, Filter(test), c);
      KeysOnEdge(db, e, nodes, c);
    }
  }

  /** A row is on the edge of some node exactly if its key is one of the nodes' keys. */
  lemma KeysOnEdge(db: Db, e: Edge, nodes: seq<Node>, c: Row)
    requires !e.Rel().M2M?
    ensures ChildHits(db, e, Keys(e, Srcs(nodes)), c) != [] <==> OnEdge(db, e, nodes, c)
  {
    if ChildHits(db, e, Keys(e, Srcs(nodes)), c) != [] {
      var p :| p in Srcs(nodes) && Related(db, e, p, c);
      var n :| n in nodes && n.src == p;
    }
    if n :| n in nodes && Related(db, e, n.src, c) {
      assert n.src in Srcs(nodes) && Key(e, n.src) in Keys(e, Srcs(nodes));
    }
  }

  /** A many-to-one load: query the rows whose id is one of the parents' foreign keys. */
  method LoadM2O(db: Db, conn: Connection, e: Edge, fk: Column, q: Query, nodes: seq<Node>)
    returns (err: Option<Error>, ghost kids: Load)
    requires WellFormed(db) && Runnable(q) && q.prev == null && q.typ == e.Target() && e.Rel() == M2O(fk)
    requires Parents(db, e, nodes)
    requires forall n :: n in nodes ==> e !in n.one
    modifies q.Repr, Elems(nodes)`one, conn`asked
    ensures forall n :: n in Objects(kids) ==> fresh(n) && allocated(n)
    ensures forall n :: n in nodes ==> n.one - {e} == old(n.one) - {e}
    ensures err.None? ==> EdgeLoaded(db, e, nodes, kids.nodes, old(q.tree))
    ensures err.None? ==> Loaded(db, kids, old(q.tree), old(q.fields))
    ensures Backed(db, kids, old(q.tree)) && (kids.nodes != [] ==> Answering(db, e, nodes, kids.nodes, old(q.tree)))
    ensures nodes != [] ==> Explains(err, Blame(kids, old(q.tree)))
    ensures conn.Heard(old(conn.asked), Queries(old(q.tree)), err == Some(StoreFailed))
    decreases q.Repr, 3
  {
    hide EdgeLoaded, Loaded, Answering, Related, OnEdge, EdgeFields, Keys, Srcs, WellFormed, Queries;
    hide Backed, Blame, Readable, DistinctKeys, WellTyped, ApiPreds;
    ghost var child := q.tree;
    DistinctNodes(nodes);
    var ids, nodeids := GroupByKey(nodes, fk);
    kids := Load([], map[]);
    if |ids| == 0 {
      NothingToLoad(db, e, fk, nodes, nodeids, child);
      return None, kids;
    }
    GroupKeys(e, fk, nodes, nodeids);
    var r;
    r, kids := RunFiltered(db, conn, e, q, (c: Row) => IdOf(c) in ids, nodes);
    if r.Err? {
      return Some(r.error), kids;
    }
    AttachNeighbors(db, e, fk, nodes, nodeids, r.value, kids, child);
    err := None;
  }

  /** A batch without foreign keys is empty, and so is everything it needs. */
  lemma NothingToLoad(db: Db, e: Edge, fk: Column, nodes: seq<Node>, nodeids: map<Value, seq<Node>>, child: Plan)
    requires e.Rel() == M2O(fk) && Grouped(Elems(nodes), fk, nodeids) && nodeids.Keys == {}
    ensures nodes == [] && EdgeLoaded(db, e, nodes, [], child)
    ensures Loaded(db, Load([], map[]), child, child.fields)
    ensures Objects(Load([], map[])) == {} && Backed(db, Load([], map[]), child)
  {
    assert forall n :: n in nodes ==> n in Elems(nodes);
    ElemsNone(nodes);
    assert Keys(e, Srcs(nodes)) == {};
    NoKeys(db, e, |Table(db, e.Target())|, child.preds);
    assert Fits(0, child.limit, child.offset);
  }

  /** The entities of a loaded batch: distinct, from their table, with every selected key column
      readable. */
  lemma BatchReadable(db: Db, g: Load, plan: Plan, fields: seq<Column>, c: Column)
    requires WellFormed(db) && Loaded(db, g, plan, fields)
    requires c in KeyColumns(plan.typ) && c in ColumnSet(plan.typ, fields, plan.withs.Keys)
    ensures DistinctKeys(g.nodes) && Readable(g.nodes, c)
    ensures forall k :: k in g.nodes ==> k.src in Table(db, plan.typ)
  {
  }

  lemma IdSelected(typ: EntityType, fields: seq<Column>, wanted: set<Edge>)
    ensures Id in KeyColumns(typ) && Id in ColumnSet(typ, fields, wanted)
  {
    assert KeyColumns(typ)[0] == Id && Columns(typ)[0] == Id;
  }

  /** The loop over the neighbors of a many-to-one load; its error branch is unreachable. */
  method AttachNeighbors(db: Db, e: Edge, fk: Column, ghost nodes: seq<Node>, nodeids: map<Value, seq<Node>>,
                         neighbors: seq<Node>, ghost kids: Load, ghost child: Plan)
    requires WellFormed(db) && e.Rel() == M2O(fk) && child.typ == e.Target()
    requires Grouped(Elems(nodes), fk, nodeids)
    requires neighbors == kids.nodes && Loaded(db, kids, child, child.fields)
    requires Answering(db, e, nodes, neighbors, child)
    requires Objects(kids) !! Elems(nodes) && forall n :: n in Objects(kids) ==> allocated(n)
    requires forall n :: n in nodes ==> e !in n.one
    modifies Elems(nodes)`one
    ensures forall n :: n in nodes ==> n.one - {e} == old(n.one) - {e}
    ensures EdgeLoaded(db, e, nodes, neighbors, child)
    ensures Loaded(db, kids, child, child.fields)
  {
    hide Loaded, Answering, Grouped, Readable, OneLoaded, Pointed;
    IdSelected(child.typ, child.fields, child.withs.Keys);
    BatchReadable(db, kids, child, child.fields, Id);
    KeysKnown(db, e, fk, nodes, nodeids, neighbors, child);
    var bad := AttachOne(e, fk, Elems(nodes), nodeids, neighbors);
    if bad.Some? {
      assert false;
    }
    StillLoaded(db, kids, child, child.fields);
    forall n | n in nodes
      ensures OneLoaded(db, e, n.src, n.one, neighbors) && n.one - {e} == old(n.one) - {e}
    {
      PointedLoaded(db, e, fk, n, old(n.one), neighbors);
    }
    ForeignKeyExact(db, e, nodes, neighbors, child);
  }

  /** Every entity a many-to-one load returned is named by the foreign key of some parent. */
  lemma KeysKnown(db: Db, e: Edge, fk: Column, nodes: seq<Node>, nodeids: map<Value, seq<Node>>,
                  neighbors: seq<Node>, child: Plan)
    requires e.Rel() == M2O(fk) && Grouped(Elems(nodes), fk, nodeids) && Answering(db, e, nodes, neighbors, child)
    ensures forall h :: 0 <= h < |neighbors| ==> IdOf(neighbors[h].src) in nodeids
  {
  }

  lemma PointedLoaded(db: Db, e: Edge, fk: Column, n: Node, before: map<Edge, Node>, neighbors: seq<Node>)
    requires e.Rel() == M2O(fk) && DistinctKeys(neighbors) && e !in before
    requires Pointed(n.one, before, e, neighbors, |neighbors|, Get(n.src, fk))
    ensures OneLoaded(db, e, n.src, n.one, neighbors) && n.one - {e} == before - {e}
  {
  }

  lemma GroupKeys(e: Edge, fk: Column, nodes: seq<Node>, nodeids: map<Value, seq<Node>>)
    requires e.Rel() == M2O(fk) && Grouped(Elems(nodes), fk, nodeids)
    ensures nodeids.Keys == Keys(e, Srcs(nodes))
  {
    forall v | v in nodeids ensures v in Keys(e, Srcs(nodes)) {
      var n := nodeids[v][0];
      assert n in nodeids[v] && n in Elems(nodes) && n.src in Srcs(nodes) && Key(e, n.src) == v;
    }
    forall v | v in Keys(e, Srcs(nodes)) ensures v in nodeids {
      var p :| p in Srcs(nodes) && Key(e, p) == v;
      var n :| n in nodes && n.src == p;
      assert n in Elems(nodes);
    }
  }

  /** A one-to-many load: query the rows whose foreign key is one of the parents' ids. */
  method LoadO2M(db: Db, conn: Connection, e: Edge, fk: Column, q: Query, nodes: seq<Node>)
    returns (err: Option<Error>, ghost kids: Load)
    requires WellFormed(db) && Runnable(q) && q.prev == null && q.typ == e.Target() && e.Rel() == O2M(fk)
    requires Parents(db, e, nodes)
    requires forall n :: n in nodes ==> e !in n.many
    modifies q.Repr, Elems(nodes)`many, conn`asked
    ensures forall n :: n in Objects(kids) ==> fresh(n) && allocated(n)
    ensures forall n :: n in nodes ==> n.many - {e} == old(n.many) - {e}
    ensures err.None? ==> EdgeLoaded(db, e, nodes, kids.nodes, old(q.tree))
    ensures err.None? ==> Loaded(db, kids, old(q.tree), EdgeFields(e, old(q.tree).fields))
    ensures Backed(db, kids, old(q.tree)) && (kids.nodes != [] ==> Answering(db, e, nodes, kids.nodes, old(q.tree)))
    ensures nodes != [] ==> Explains(err, Blame(kids, old(q.tree)))
    ensures conn.Heard(old(conn.asked), Queries(old(q.tree)), err == Some(StoreFailed))
    decreases q.Repr, 3
  {
    hide EdgeLoaded, Loaded, Answering, Related, OnEdge, WellTyped, ApiPreds, Indexed, Keys, Srcs;
    hide WellFormed, Queries, Objects, Readable, DistinctKeys, Backed, Blame, Explains;
    ghost var child := q.tree;
    var ids, byId := IndexById(e, nodes);
    SelectForeignKey(e, fk, q);
    IndexKeys(e, nodes, byId);
    var r;
    r, kids := RunFiltered(db, conn, e, q, (c: Row) => Get(c, fk) in ids, nodes);
    SameBatch(db, e, nodes, kids, child, child.(fields := EdgeFields(e, child.fields)));
    if r.Err? {
      return Some(r.error), kids;
    }
    AttachReferenced(db, e, fk, nodes, byId, r.value, kids, child);
    err := None;
  }

  /** If the caller selected fields, the foreign key is read as well. */
  method SelectForeignKey(e: Edge, fk: Column, q: Query)
    requires Runnable(q) && q.prev == null && q.typ == e.Target() && e.Rel() == O2M(fk)
    modifies q`fields, q`tree
    ensures Runnable(q) && q.tree == old(q.tree).(fields := EdgeFields(e, old(q.tree).fields))
    ensures FirstBad(q.typ, q.tree.fields) == FirstBad(q.typ, old(q.tree).fields)
    ensures Queries(q.tree) == Queries(old(q.tree))
  {
    EdgeColumns(e);
    FirstBadMore(q.typ, q.fields, fk);
    SameEdgeQueries(q.tree, q.tree.(fields := EdgeFields(e, q.tree.fields)), EdgesOf(q.typ));
    if |q.fields| > 0 {
      q.AppendFieldOnce(fk);
    }
  }

  lemma SameBatch(db: Db, e: Edge, nodes: seq<Node>, kids: Load, a: Plan, b: Plan)
    requires b == a.(fields := b.fields) && FirstBad(a.typ, a.fields) == FirstBad(b.typ, b.fields)
    ensures Loaded(db, kids, a, b.fields) == Loaded(db, kids, b, b.fields)
    ensures Answering(db, e, nodes, kids.nodes, a) == Answering(db, e, nodes, kids.nodes, b)
    ensures Blame(kids, a) == Blame(kids, b) && Backed(db, kids, a) == Backed(db, kids, b)
  {
    hide Loaded, Answering, Blame, Backed;
    SameAnswering(db, e, nodes, kids.nodes, a, b);
    SameBlame(kids, a, b);
    SameBacked(db, kids, a, b);
    SameLoaded(db, kids, a, b, b.fields);
  }

  lemma SameAnswering(db: Db, e: Edge, nodes: seq<Node>, kids: seq<Node>, a: Plan, b: Plan)
    requires a.preds == b.preds && a.limit == b.limit && a.offset == b.offset
    ensures Answering(db, e, nodes, kids, a) == Answering(db, e, nodes, kids, b)
  {
    hide OnEdge, Passes, Fits;
    assert forall c :: Wanted(db, e, nodes, a, c) == Wanted(db, e, nodes, b, c);
  }

  lemma IndexKeys(e: Edge, nodes: seq<Node>, byId: map<Value, Node>)
    requires !e.Rel().M2O? && Indexed(Elems(nodes), byId)
    ensures byId.Keys == Keys(e, Srcs(nodes))
  {
    forall v | v in byId ensures v in Keys(e, Srcs(nodes)) {
      assert byId[v] in Elems(nodes) && byId[v].src in Srcs(nodes) && Key(e, byId[v].src) == v;
    }
    forall v | v in Keys(e, Srcs(nodes)) ensures v in byId {
      var p :| p in Srcs(nodes) && Key(e, p) == v;
      var n :| n in nodes && n.src == p;
      assert n in Elems(nodes);
    }
  }

  lemma ForeignKeySelected(e: Edge, fk: Column, fields: seq<Column>, wanted: set<Edge>)
    requires e.Rel() == O2M(fk)
    ensures fk in KeyColumns(e.Target()) && fk in ColumnSet(e.Target(), EdgeFields(e, fields), wanted)
  {
    EdgeColumns(e);
  }

  /** The loop over the neighbors of a one-to-many load; its error branch is unreachable. */
  method AttachReferenced(db: Db, e: Edge, fk: Column, ghost nodes: seq<Node>, byId: map<Value, Node>,
                          neighbors: seq<Node>, ghost kids: Load, ghost child: Plan)
    requires WellFormed(db) && e.Rel() == O2M(fk) && child.typ == e.Target()
    requires Indexed(Elems(nodes), byId)
    requires neighbors == kids.nodes && Loaded(db, kids, child, EdgeFields(e, child.fields))
    requires Answering(db, e, nodes, neighbors, child)
    requires Objects(kids) !! Elems(nodes) && forall n :: n in Objects(kids) ==> allocated(n)
    requires forall n :: n in nodes ==> e in n.many && n.many[e] == []
    modifies Elems(nodes)`many
    ensures forall n :: n in nodes ==> n.many - {e} == old(n.many) - {e}
    ensures EdgeLoaded(db, e, nodes, neighbors, child)
    ensures Loaded(db, kids, child, EdgeFields(e, child.fields))
  {
    hide Loaded, Answering, Indexed, Readable, ManyLoaded, EdgeFields;
    ForeignKeySelected(e, fk, child.fields, child.withs.Keys);
    BatchReadable(db, kids, child, EdgeFields(e, child.fields), fk);
    IdsKnown(db, e, fk, nodes, byId, neighbors, child);
    var bad := AttachMany(e, fk, Elems(nodes), byId, neighbors);
    if bad.Some? {
      assert false;
    }
    StillLoaded(db, kids, child, EdgeFields(e, child.fields));
    forall n | n in nodes
      ensures e in n.many && ManyLoaded(db, e, n.src, n.many[e], neighbors) && n.many - {e} == old(n.many) - {e}
    {
      FilteredLoaded(db, e, fk, Elems(nodes), byId, n, neighbors);
    }
    ForeignKeyExact(db, e, nodes, neighbors, child);
  }

  /** Every entity a one-to-many load returned refers to some parent. */
  lemma IdsKnown(db: Db, e: Edge, fk: Column, nodes: seq<Node>, byId: map<Value, Node>,
                 neighbors: seq<Node>, child: Plan)
    requires e.Rel() == O2M(fk) && Indexed(Elems(nodes), byId) && Answering(db, e, nodes, neighbors, child)
    ensures forall h :: 0 <= h < |neighbors| ==> Get(neighbors[h].src, fk) in byId
    ensures byId.Values <= Elems(nodes)
  {
  }

  lemma FilteredLoaded(db: Db, e: Edge, fk: Column, parents: set<Node>, byId: map<Value, Node>, n: Node,
                       neighbors: seq<Node>)
    requires e.Rel() == O2M(fk) && Indexed(parents, byId) && n in parents
    ensures ManyLoaded(db, e, n.src, Keep(neighbors, Behind(neighbors, fk, byId, n)), neighbors)
  {
    var behind := Behind(neighbors, fk, byId, n);
    KeepMembers(neighbors, behind);
    KeepSame(neighbors, |neighbors|, behind, Elems(Keep(neighbors, behind)));
  }

  /** A many-to-many load: join the parents' ids into the child query and intercept its rows. */
  method LoadM2M(db: Db, conn: Connection, e: Edge, table: EntityType, outCol: Column, inCol: Column,
                 q: Query, nodes: seq<Node>)
    returns (err: Option<Error>, ghost kids: Load, ghost hits: seq<Hit>)
    requires WellFormed(db) && Runnable(q) && q.prev == null
    requires q.typ == e.Target() && e.Rel() == M2M(table, outCol, inCol)
    requires Parents(db, e, nodes)
    requires forall n :: n in nodes ==> e !in n.many
    modifies q.Repr, Elems(nodes)`many, conn`asked
    ensures forall n :: n in Objects(kids) ==> fresh(n) && allocated(n)
    ensures forall n :: n in nodes ==> n.many - {e} == old(n.many) - {e}
    ensures err.None? ==> EdgeLoaded(db, e, nodes, kids.nodes, old(q.tree))
    ensures err.None? ==> Announced(db, e, nodes, old(q.tree), hits) && FromStream(kids.nodes, hits)
    ensures err.None? ==> Loaded(db, kids, old(q.tree), old(q.tree).fields)
    ensures Backed(db, kids, old(q.tree)) && (kids.nodes != [] ==> Answering(db, e, nodes, kids.nodes, old(q.tree)))
    ensures nodes != [] ==> Explains(err, Blame(kids, old(q.tree)))
    ensures conn.Heard(old(conn.asked), Queries(old(q.tree)), err == Some(StoreFailed))
    decreases q.Repr, 3
  {
    hide EdgeLoaded, Loaded, Answering, Announced, Links, FromStream, Indexed, WellFormed, Backed, Blame, Explains;
    hide WellTyped, ApiPreds, Objects;
    ghost var child := q.tree;
    var ids, byId := IndexById(e, nodes);
    var join := JoinOn(table, outCol, inCol, ids);
    var hook := new JoinHook(byId);
    var r;
    r, kids, hits := RunJoined(db, conn, e, q, join, hook, nodes);
    if r.Err? {
      return Some(r.error), kids, hits;
    }
    AttachJoined(db, e, nodes, byId, hook.nids, r.value, kids, child, hits);
    err := None;
  }

  /** query.Where(join), query.prepareQuery, then query.sqlAll with the interceptor. */
  method RunJoined(db: Db, conn: Connection, e: Edge, q: Query, join: Clause, hook: JoinHook, ghost nodes: seq<Node>)
    returns (r: Result<seq<Node>>, ghost kids: Load, ghost hits: seq<Hit>)
    requires WellFormed(db) && Runnable(q) && q.prev == null && q.typ == e.Target()
    requires join.JoinOn? && e.Rel() == M2M(join.table, join.outCol, join.inCol)
    requires hook.nids == map[] && Indexed(Elems(nodes), hook.byId) && forall v :: v in join.ids <==> v in hook.byId
    modifies q.Repr, hook, conn`asked
    ensures forall n :: n in Objects(kids) ==> fresh(n) && allocated(n)
    ensures r.Ok? ==> r.value == kids.nodes && Loaded(db, kids, old(q.tree), old(q.fields))
    ensures r.Ok? || kids.nodes != [] ==>
      && Announced(db, e, nodes, old(q.tree), hits) && FromStream(kids.nodes, hits)
      && Answering(db, e, nodes, kids.nodes, old(q.tree))
    ensures r.Ok? ==> Indexes(hook, hits) && hook.nids == Links(hits, |hits|, hook.byId)
    ensures Backed(db, kids, old(q.tree)) && Explains(ErrorOf(r), Blame(kids, old(q.tree)))
    ensures conn.Heard(old(conn.asked), Queries(old(q.tree)), r == Err(StoreFailed))
    decreases q.Repr, 3, 0
  {
    hide Loaded, Answering, Announced, Links, Stream, FromStream, OnlyFilters, WellTyped, HasJoin, ApiPreds;
    ghost var child := q.tree;
    kids, hits := Load([], map[]), [];
    WhereJoin(q, join);
    ghost var joined := q.tree;
    r, kids, hits := RunPrepared(db, conn, q, hook);
    SameBlame(kids, child, joined);
    SameBacked(db, kids, child, joined);
    if r.Ok? {
      SameLoaded(db, kids, child, joined, child.fields);
    }
    if r.Ok? || kids.nodes != [] {
      JoinAnswer(db, e, join, nodes, hook.byId, child, hits, kids.nodes);
    }
  }

  /** query.prepareQuery, then query.sqlAll with the interceptor. */
  method RunPrepared(db: Db, conn: Connection, q: Query, hook: JoinHook)
    returns (r: Result<seq<Node>>, ghost kids: Load, ghost hits: seq<Hit>)
    requires WellFormed(db) && q.Valid() && q.prev == null && WellTyped(q.tree)
    requires forall e :: e in q.tree.withs ==> ApiPreds(q.tree.withs[e])
    requires Hooked(q.preds, hook)
    modifies q.Repr, hook, conn`asked
    ensures forall n :: n in Objects(kids) ==> fresh(n) && allocated(n)
    ensures r.Ok? ==> r.value == kids.nodes && Loaded(db, kids, old(q.tree), old(q.fields))
    ensures r.Ok? || kids.nodes != [] ==>
      Stream(db, Table(db, q.typ), old(q.tree), hits) && FromStream(kids.nodes, hits)
    ensures r.Ok? ==> Indexes(hook, hits) && hook.nids == Links(hits, |hits|, hook.byId)
    ensures Backed(db, kids, old(q.tree)) && Explains(ErrorOf(r), Blame(kids, old(q.tree)))
    ensures conn.Heard(old(conn.asked), Queries(old(q.tree)), r == Err(StoreFailed))
    decreases q.Repr, 2
  {
    hide Loaded, Links, Stream, FromStream, WellTyped, ApiPreds, Hooked;
    kids, hits := Load([], map[]), [];
    var bad, candidates := PrepareQuery(db, q);
    if bad.Some? {
      return Err(InvalidField(bad.value)), kids, hits;
    }
    q.Unchanged();
    r, kids, hits := SqlAll(db, conn, q, candidates, hook);
  }

  method WhereJoin(q: Query, join: Clause)
    requires Runnable(q) && join.JoinOn?
    modifies q`preds, q`tree
    ensures q.Valid() && q.tree == old(q.tree).(preds := old(q.tree).preds + [join])
    ensures HasJoin(q.preds) && q.preds[|q.preds| - 1] == join
    ensures WellTyped(q.tree)
    ensures Queries(q.tree) == Queries(old(q.tree))
    ensures forall e :: e in q.tree.withs ==> ApiPreds(q.tree.withs[e])
  {
    q.Where([join]);
    SameTree(old(q.tree), q.tree);
  }

  /** A row the join query may return: a child row that passes, next to the id of a parent it is
      related to. */
  ghost predicate Announces(db: Db, e: Edge, nodes: seq<Node>, child: Plan, h: Hit) {
    h.row in Table(db, e.Target()) && Passes(child.preds, h.row) && FromParent(db, e, nodes, h)
  }

  ghost predicate FromParent(db: Db, e: Edge, nodes: seq<Node>, h: Hit) {
    exists n :: n in nodes && IdOf(n.src) == h.out && Related(db, e, n.src, h.row)
  }

  /** The row stream of a many-to-many load: rows of that kind only; all of them if LIMIT and
      OFFSET cut nothing; and otherwise, if no link is stored twice, not all of them. */
  ghost predicate Announced(db: Db, e: Edge, nodes: seq<Node>, child: Plan, hits: seq<Hit>) {
    && (forall h :: h in hits ==> Announces(db, e, nodes, child, h))
    && (BatchFits(db, e, Srcs(nodes), child) ==> forall h :: Announces(db, e, nodes, child, h) ==> h in hits)
    && (!BatchFits(db, e, Srcs(nodes), child) && UniqueLinks(db, e) ==>
          exists h :: Announces(db, e, nodes, child, h) && h !in hits)
  }

  lemma JoinHit(db: Db, e: Edge, join: Clause, nodes: seq<Node>, byId: map<Value, Node>, child: Plan, h: Hit)
    requires join.JoinOn? && e.Rel() == M2M(join.table, join.outCol, join.inCol)
    requires Indexed(Elems(nodes), byId) && forall v :: v in join.ids <==> v in byId
    ensures IsHit(db, Table(db, e.Target()), child.preds + [join], h) <==> Announces(db, e, nodes, child, h)
  {
    ClauseAdded(child.preds, join, h.row);
    if Joined(db, join, h) {
      var n := byId[h.out];
      assert n in Elems(nodes) && IdOf(n.src) == h.out && Related(db, e, n.src, h.row);
    }
  }

  lemma JoinAnswer(db: Db, e: Edge, join: Clause, nodes: seq<Node>, byId: map<Value, Node>, child: Plan,
                   hits: seq<Hit>, kids: seq<Node>)
    requires WellFormed(db) && child.typ == e.Target()
    requires join.JoinOn? && e.Rel() == M2M(join.table, join.outCol, join.inCol)
    requires Indexed(Elems(nodes), byId) && forall v :: v in join.ids <==> v in byId
    requires Stream(db, Table(db, e.Target()), child.(preds := child.preds + [join]), hits) && FromStream(kids, hits)
    ensures Announced(db, e, nodes, child, hits) && Answering(db, e, nodes, kids, child)
  {
    JoinStream(db, e, join, nodes, byId, child, hits);
    StreamNodes(kids, hits);
    AnnouncedAnswer(db, e, nodes, child, hits, kids);
  }

  lemma JoinStream(db: Db, e: Edge, join: Clause, nodes: seq<Node>, byId: map<Value, Node>, child: Plan, hits: seq<Hit>)
    requires WellFormed(db) && child.typ == e.Target()
    requires join.JoinOn? && e.Rel() == M2M(join.table, join.outCol, join.inCol)
    requires Indexed(Elems(nodes), byId) && forall v :: v in join.ids <==> v in byId
    requires Stream(db, Table(db, e.Target()), child.(preds := child.preds + [join]), hits)
    ensures Announced(db, e, nodes, child, hits)
  {
    hide Stream, IsHit, Announces, Fits, Indexed;
    var joined, table := child.(preds := child.preds + [join]), Table(db, e.Target());
    IndexKeys(e, nodes, byId);
    assert Elems(join.ids) == byId.Keys;
    JoinHits(db, e, |Table(db, e.Target())|, Keys(e, Srcs(nodes)), child.preds, join);
    ClauseAdded(child.preds, join, map[]);
    StreamHits(db, table, joined, hits);
    forall h: Hit ensures IsHit(db, Table(db, e.Target()), joined.preds, h) <==> Announces(db, e, nodes, child, h) {
      JoinHit(db, e, join, nodes, byId, child, h);
    }
    if BatchFits(db, e, Srcs(nodes), child) {
      StreamWhole(db, table, joined, hits);
    } else if UniqueLinks(db, e) {
      TableCandidates(db, e.Target());
      var h := StreamLacks(db, table, joined, hits);
    }
  }

  lemma AnnouncedAnswer(db: Db, e: Edge, nodes: seq<Node>, child: Plan, hits: seq<Hit>, kids: seq<Node>)
    requires e.Rel().M2M? && Announced(db, e, nodes, child, hits)
    requires forall n :: n in kids ==> exists h :: h in hits && h.row == n.src
    requires forall h :: h in hits ==> h.row in Srcs(kids)
    ensures Answering(db, e, nodes, kids, child)
  {
    forall k | k in kids ensures Wanted(db, e, nodes, child, k.src) {
      var h :| h in hits && h.row == k.src;
      var n :| n in nodes && IdOf(n.src) == h.out && Related(db, e, n.src, h.row);
    }
    forall c | BatchFits(db, e, Srcs(nodes), child) && Wanted(db, e, nodes, child, c)
      ensures c in Srcs(kids)
    {
      var n :| n in nodes && Related(db, e, n.src, c);
      var h := Hit(IdOf(n.src), c);
      assert FromParent(db, e, nodes, h) && Announces(db, e, nodes, child, h);
      assert h in hits && h.row == c;
    }
  }

  /** The loop over the neighbors of a many-to-many load; its error branch is unreachable. */
  method AttachJoined(db: Db, e: Edge, ghost nodes: seq<Node>, ghost byId: map<Value, Node>,
                      nids: map<Value, set<Node>>, neighbors: seq<Node>, ghost kids: Load, ghost child: Plan,
                      ghost hits: seq<Hit>)
    requires WellFormed(db) && e.Rel().M2M? && child.typ == e.Target()
    requires Indexed(Elems(nodes), byId) && Announced(db, e, nodes, child, hits) && FromStream(neighbors, hits)
    requires (forall i :: 0 <= i < |hits| ==> hits[i].out in byId) && nids == Links(hits, |hits|, byId)
    requires neighbors == kids.nodes && Loaded(db, kids, child, child.fields)
    requires Answering(db, e, nodes, neighbors, child)
    requires Objects(kids) !! Elems(nodes) && forall n :: n in Objects(kids) ==> allocated(n)
    requires forall n :: n in nodes ==> e in n.many && n.many[e] == []
    modifies Elems(nodes)`many
    ensures forall n :: n in nodes ==> n.many - {e} == old(n.many) - {e}
    ensures EdgeLoaded(db, e, nodes, neighbors, child)
    ensures Loaded(db, kids, child, child.fields)
  {
    hide Loaded, Answering, Indexed, Readable, ManyLoaded, Links, Announced, FromStream, DistinctKeys;
    hide Through, Keep, Exact;
    AnswersPass(db, e, nodes, neighbors, child);
    IdSelected(child.typ, child.fields, child.withs.Keys);
    BatchReadable(db, kids, child, child.fields, Id);
    LinksKnown(Elems(nodes), byId, hits, neighbors);
    var bad := AttachThrough(e, Elems(nodes), nids, neighbors);
    if bad.Some? {
      assert false;
    }
    StillLoaded(db, kids, child, child.fields);
    forall n | n in nodes
      ensures e in n.many && ManyLoaded(db, e, n.src, n.many[e], neighbors) && n.many - {e} == old(n.many) - {e}
    {
      JoinedLoaded(db, e, nodes, byId, n, neighbors, child, hits);
    }
    JoinExact(db, e, nodes, byId, neighbors, child, hits);
  }

  lemma AnswersPass(db: Db, e: Edge, nodes: seq<Node>, kids: seq<Node>, child: Plan)
    requires Answering(db, e, nodes, kids, child)
    ensures forall k :: k in kids ==> Passes(child.preds, k.src)
  {
  }

  /** Every entity a many-to-many load returned was announced by the stream, and links lead to
      parents only. */
  lemma LinksKnown(parents: set<Node>, byId: map<Value, Node>, hits: seq<Hit>, neighbors: seq<Node>)
    requires Indexed(parents, byId) && FromStream(neighbors, hits)
    requires forall i :: 0 <= i < |hits| ==> hits[i].out in byId
    ensures forall h :: 0 <= h < |neighbors| ==> IdOf(neighbors[h].src) in Links(hits, |hits|, byId)
    ensures forall v :: v in Links(hits, |hits|, byId) ==> Links(hits, |hits|, byId)[v] <= parents
  {
    hide Links, FirstTo, FromStream;
    LinksAnnounced(hits, |hits|, byId);
    StreamNodes(neighbors, hits);
    var nids := Links(hits, |hits|, byId);
    forall h | 0 <= h < |neighbors| ensures IdOf(neighbors[h].src) in nids {
      assert neighbors[h] in neighbors;
      var hit :| hit in hits && hit.row == neighbors[h].src;
      var i :| 0 <= i < |hits| && hits[i] == hit;
    }
    forall v, p | v in nids && p in nids[v] ensures p in parents {
      LinkFrom(hits, |hits|, byId, v, p);
    }
  }

  lemma LinkFrom(hits: seq<Hit>, n: nat, byId: map<Value, Node>, v: Value, p: Node)
    requires n <= |hits| && forall h :: 0 <= h < n ==> hits[h].out in byId
    requires v in Links(hits, n, byId) && p in Links(hits, n, byId)[v]
    ensures p in byId.Values
  {
    LinksAnnounced(hits, n, byId);
    var h :| 0 <= h < n && IdOf(hits[h].row) == v && byId[hits[h].out] == p;
  }

  lemma JoinedLoaded(db: Db, e: Edge, nodes: seq<Node>, byId: map<Value, Node>, n: Node, neighbors: seq<Node>,
                     child: Plan, hits: seq<Hit>)
    requires WellFormed(db) && e.Rel().M2M? && child.typ == e.Target() && n in nodes
    requires Indexed(Elems(nodes), byId) && Announced(db, e, nodes, child, hits)
    requires forall i :: 0 <= i < |hits| ==> hits[i].out in byId
    requires forall k :: k in neighbors ==> k.src in Table(db, child.typ) && Passes(child.preds, k.src)
    ensures ManyLoaded(db, e, n.src, Keep(neighbors, Through(neighbors, Links(hits, |hits|, byId), n)), neighbors)
  {
    var nids := Links(hits, |hits|, byId);
    var through := Through(neighbors, nids, n);
    KeepMembers(neighbors, through);
    KeepSame(neighbors, |neighbors|, through, Elems(Keep(neighbors, through)));
    forall k | k in through ensures Related(db, e, n.src, k.src) {
      LinkedRelated(db, e, nodes, byId, n, k.src, child, hits);
    }
  }

  /** What the interceptor recorded about a parent and a child is what the stream announced. */
  lemma LinkedRelated(db: Db, e: Edge, nodes: seq<Node>, byId: map<Value, Node>, n: Node, c: Row, child: Plan,
                      hits: seq<Hit>)
    requires WellFormed(db) && child.typ == e.Target() && n in nodes
    requires Indexed(Elems(nodes), byId) && Announced(db, e, nodes, child, hits)
    requires forall i :: 0 <= i < |hits| ==> hits[i].out in byId
    requires c in Table(db, child.typ) && Passes(child.preds, c)
    ensures var nids := Links(hits, |hits|, byId);
            && (IdOf(c) in nids && n in nids[IdOf(c)] <==> Hit(IdOf(n.src), c) in hits)
            && (Hit(IdOf(n.src), c) in hits ==> Related(db, e, n.src, c))
  {
    hide Links, Related, BatchFits, UniqueLinks;
    LinksAnnounced(hits, |hits|, byId);
    var nids, hit := Links(hits, |hits|, byId), Hit(IdOf(n.src), c);
    if IdOf(c) in nids && n in nids[IdOf(c)] {
      var h :| 0 <= h < |hits| && IdOf(hits[h].row) == IdOf(c) && byId[hits[h].out] == n;
      AnnouncedRelated(db, e, nodes, byId, n, c, child, hits[h]);
    }
    if hit in hits {
      var i :| 0 <= i < |hits| && hits[i] == hit;
      assert n in Elems(nodes) && byId[hits[i].out] == n;
      AnnouncedRelated(db, e, nodes, byId, n, c, child, hits[i]);
    }
  }

  lemma AnnouncedRelated(db: Db, e: Edge, nodes: seq<Node>, byId: map<Value, Node>, n: Node, c: Row, child: Plan,
                         h: Hit)
    requires WellFormed(db) && child.typ == e.Target() && n in nodes
    requires Indexed(Elems(nodes), byId) && Announces(db, e, nodes, child, h)
    requires c in Table(db, child.typ) && IdOf(h.row) == IdOf(c) && h.out in byId && byId[h.out] == n
    ensures h == Hit(IdOf(n.src), c) && Related(db, e, n.src, c)
  {
    SameId(Table(db, child.typ), h.row, c);
    var m :| m in nodes && IdOf(m.src) == h.out && Related(db, e, m.src, c);
    assert m in Elems(nodes) && byId[IdOf(m.src)] == m;
  }

  /** Through a join table, a node lacks exactly what the row stream lacks. */
  lemma JoinExact(db: Db, e: Edge, nodes: seq<Node>, byId: map<Value, Node>, neighbors: seq<Node>, child: Plan,
                  hits: seq<Hit>)
    requires WellFormed(db) && e.Rel().M2M? && child.typ == e.Target()
    requires Indexed(Elems(nodes), byId) && Announced(db, e, nodes, child, hits) && FromStream(neighbors, hits)
    requires forall i :: 0 <= i < |hits| ==> hits[i].out in byId
    requires forall k :: k in neighbors ==> k.src in Table(db, child.typ) && Passes(child.preds, k.src)
    requires forall n :: n in nodes ==>
      e in n.many && n.many[e] == Keep(neighbors, Through(neighbors, Links(hits, |hits|, byId), n))
    ensures Exact(db, e, nodes, child)
  {
    hide Links, FromStream, Through, Keep, Indexed, BatchFits, UniqueLinks;
    forall n, c | n in nodes && c in Table(db, e.Target()) && Passes(child.preds, c)
      ensures (exists k :: k in Attached(n, e) && k.src == c) <==> Hit(IdOf(n.src), c) in hits
    {
      HeldIfStreamed(db, e, nodes, byId, n, c, neighbors, child, hits);
    }
    if BatchFits(db, e, Srcs(nodes), child) {
      forall n | n in nodes ensures Complete(db, e, n, child) {
        forall c | c in Table(db, e.Target()) && Passes(child.preds, c) && Related(db, e, n.src, c)
          ensures Hit(IdOf(n.src), c) in hits
        {
          assert FromParent(db, e, nodes, Hit(IdOf(n.src), c)) && Announces(db, e, nodes, child, Hit(IdOf(n.src), c));
        }
      }
    } else if UniqueLinks(db, e) {
      var h :| Announces(db, e, nodes, child, h) && h !in hits;
      var n :| n in nodes && IdOf(n.src) == h.out && Related(db, e, n.src, h.row);
      assert h == Hit(IdOf(n.src), h.row);
      assert !Complete(db, e, n, child);
    }
  }

  lemma HeldIfStreamed(db: Db, e: Edge, nodes: seq<Node>, byId: map<Value, Node>, n: Node, c: Row,
                       neighbors: seq<Node>, child: Plan, hits: seq<Hit>)
    requires WellFormed(db) && e.Rel().M2M? && child.typ == e.Target() && n in nodes
    requires Indexed(Elems(nodes), byId) && Announced(db, e, nodes, child, hits) && FromStream(neighbors, hits)
    requires forall i :: 0 <= i < |hits| ==> hits[i].out in byId
    requires c in Table(db, child.typ) && Passes(child.preds, c)
    requires e in n.many && n.many[e] == Keep(neighbors, Through(neighbors, Links(hits, |hits|, byId), n))
    ensures (exists k :: k in Attached(n, e) && k.src == c) <==> Hit(IdOf(n.src), c) in hits
  {
    hide Links, FromStream, Keep, Announced, Indexed;
    var through := Through(neighbors, Links(hits, |hits|, byId), n);
    KeepMembers(neighbors, through);
    StreamNodes(neighbors, hits);
    LinkedRelated(db, e, nodes, byId, n, c, child, hits);
    if Hit(IdOf(n.src), c) in hits {
      assert c in Srcs(neighbors);
      var k :| k in neighbors && k.src == c;
      assert k in through;
    }
  }
}
