/** sqlSave: compiling a mutation into an update specification, and what saving it means. */
module UpdateSpec {
  import opened Seqs
  import opened Schema
  import opened Store
  import opened EdgeSpecs
  import opened Migration
  import opened Mutation

  datatype FieldSpec = FieldSpec(column: Column, value: int)

  /** `sets` and `adds` assign and increment numbers, `plain` assigns everything else, and `nulls` are
      the columns to clear. */
  datatype Spec = Spec(plain: seq<(Column, Value)>, nulls: seq<Column>, sets: seq<FieldSpec>, adds: seq<FieldSpec>,
                       clear: seq<EdgeSpec>, add: seq<EdgeSpec>)

  /** Why check refuses an update. */
  datatype Refusal = InvalidValue(column: Column) | ClearingRequired(edge: Edge)

  datatype CompileResult = Compiled(spec: Spec) | NotCompiled(why: Refusal)

  // ---------------------------------------------------------------- what the library does with it

  /** The linked ids of edge `e` after an update: all clears, then all adds. */
  function LinksAfter(spec: Spec, e: Edge, s: set<Value>): set<Value> {
    ApplyAdds(spec.add, e, ApplyClears(spec.clear, e, s))
  }

  function ApplySets(specs: seq<FieldSpec>, c: Column, x: int): int {
    if specs == [] then x
    else
      var last := specs[|specs| - 1];
      if last.column == c then last.value else ApplySets(specs[..|specs| - 1], c, x)
  }

  function ApplyDeltas(specs: seq<FieldSpec>, c: Column, x: int): int {
    if specs == [] then x
    else
      var rest, last := ApplyDeltas(specs[..|specs| - 1], c, x), specs[|specs| - 1];
      if last.column == c then rest + last.value else rest
  }

  /** The stored number of column `c` after an update: all assignments, then all increments. */
  function NumberAfter(spec: Spec, c: Column, x: int): int {
    ApplyDeltas(spec.adds, c, ApplySets(spec.sets, c, x))
  }

  function ApplyPlain(plain: seq<(Column, Value)>, c: Column, x: Value): Value {
    if plain == [] then x
    else
      var last := plain[|plain| - 1];
      if last.0 == c then last.1 else ApplyPlain(plain[..|plain| - 1], c, x)
  }

  /** The stored value of any other column after an update. Whether a column that is both assigned and
      cleared ends up NULL is up to the library. */
  function ValueAfter(spec: Spec, nullLast: bool, c: Column, x: Value): Value {
    if c !in spec.nulls then ApplyPlain(spec.plain, c, x)
    else if nullLast then Null
    else ApplyPlain(spec.plain, c, Null)
  }

  // ---------------------------------------------------------------- what the log asks for
  // ---------------------------------------------------------------- what the log asks for

  ghost function ClearOutcome(l: Log, e: Edge, s: set<Value>): set<Value> {
    if e in l.cleared then {} else if e.Rel().M2O? then s else s - In(l.removed, e)
  }

  ghost function AddOutcome(l: Log, e: Edge, s: set<Value>): set<Value> {
    if e.Rel().M2O? then if e in l.refs then {l.refs[e]} else s
    else s + In(l.added, e)
  }

  /** The links a log leaves: cleared or without the removed ids, plus the added ones. */
  ghost function Outcome(l: Log, e: Edge, s: set<Value>): set<Value> {
    AddOutcome(l, e, ClearOutcome(l, e, s))
  }

  function Delta(l: Log, c: Column): int {
    if c in l.deltas then l.deltas[c] else 0
  }

  function Base(l: Log, c: Column, x: int): int {
    if c in l.sets then l.sets[c] else x
  }

  function NumberOutcome(l: Log, c: Column, x: int): int {
    Base(l, c, x) + Delta(l, c)
  }

  /** check refuses an update that both clears and sets a required to-one edge. */
  predicate Refused(l: Log, e: Edge) {
    e.Rel().M2O? && e in l.cleared && e in l.refs
  }

  /** The validators of the texts: a maximal length, or the values of an enumeration. */
  predicate ValidValue(typ: EntityType, c: Column, v: Value) {
    v.StrV? ==>
      match (typ, c)
      case (User, Username) => |v.s| <= 32
      case (User, Provider) => |v.s| <= 32
      case (User, ProviderId) => |v.s| <= 255
      case (System, Name) => |v.s| <= 64
      case (System, Description) => |v.s| <= 255
      case (System, Status) => v.s in ["active", "inactive", "maintenance"]
      case (UserSystem, Username) => |v.s| <= 32
      case (SystemGroup, Name) => |v.s| <= 32
      case (Object, Provider) => v.s == "s3"
      case (Object, Status) => v.s in ["pending", "active"]
      case _ => true
  }

  /** The validators are the sizes and the enumerations of the tables. */
  lemma ValidMatch(typ: EntityType, c: Column, v: Value)
    requires Declared(typ, c).Some?
    ensures ValidValue(typ, c, v) <==> FitsColumn(Declared(typ, c).value, v)
  {
  }

  /** check refuses a value its validator refuses. */
  predicate Invalid(typ: EntityType, l: Log, c: Column) {
    c in l.values && !ValidValue(typ, c, l.values[c])
  }

  /** The value a log leaves: the assigned one, NULL if the field was cleared. */
  function ValueOutcome(l: Log, nullLast: bool, c: Column, x: Value): Value {
    if c in l.nulled && (nullLast || c !in l.values) then Null else if c in l.values then l.values[c] else x
  }

  /** Executing the update would break a NOT NULL constraint: it clears the foreign key of a to-one edge,
      or of some row on a one-to-many edge, or inserts a row into a join table that needs more than
      the two keys. */
  ghost predicate Violates(l: Log, e: Edge, s: set<Value>) {
    match e.Rel()
    case M2O(_) => e in l.cleared && e !in l.refs
    case O2M(_) => if e in l.cleared then s != {} else s * In(l.removed, e) != {}
    case M2M(table, _, _) => NeedsMore(table) && In(l.added, e) != {}
  }

  /** The join table of users and systems also has a username, NOT NULL and without a default. */
  predicate NeedsMore(table: EntityType) {
    table == UserSystem
  }

  /** A join table needs more exactly if it has another column that may not be left out. */
  lemma NeedsMoreMatch(e: Edge)
    requires e.Rel().M2M?
    ensures NeedsMore(e.Rel().table) <==>
      exists c :: c != e.Rel().outCol && c != e.Rel().inCol && MustBeGiven(e.Rel().table, c)
  {
    assert MustBeGiven(UserSystem, Username);
  }

  /** Neither NULL nor anything else is filled in for the column. */
  predicate MustBeGiven(table: EntityType, c: Column) {
    match Declared(table, c)
    case Some(sc) => !sc.nullable && sc.default.None? && !sc.increment
    case None => false
  }

  // ---------------------------------------------------------------- the compilation

  /** check: the validators first, then the required edges. */
  method Check(m: Mutation) returns (bad: Option<Refusal>)
    ensures bad.None? <==>
      && (forall c :: c in PlainColumns(m.typ) ==> !Invalid(m.typ, m.State(), c))
      && forall e :: e in EdgesOf(m.typ) ==> !Refused(m.State(), e)
    ensures bad.Some? && bad.value.InvalidValue? ==>
      bad.value.column in PlainColumns(m.typ) && Invalid(m.typ, m.State(), bad.value.column)
    ensures bad.Some? && bad.value.ClearingRequired? ==>
      && bad.value.edge in EdgesOf(m.typ) && Refused(m.State(), bad.value.edge)
      && forall c :: c in PlainColumns(m.typ) ==> !Invalid(m.typ, m.State(), c)
  {
    hide ValidValue;
    var columns, edges := PlainColumns(m.typ), EdgesOf(m.typ);
    for i := 0 to |columns|
      invariant forall k :: 0 <= k < i ==> !Invalid(m.typ, m.State(), columns[k])
    {
      if columns[i] in m.values && !ValidValue(m.typ, columns[i], m.values[columns[i]]) {
        assert columns[i] in columns && Invalid(m.typ, m.State(), columns[i]);
        return Some(InvalidValue(columns[i]));
      }
    }
    for i := 0 to |edges|
      invariant forall k :: 0 <= k < i ==> !Refused(m.State(), edges[k])
    {
      if edges[i].Rel().M2O? && edges[i] in m.cleared && edges[i] in m.refs {
        assert edges[i] in edges && Refused(m.State(), edges[i]);
        return Some(ClearingRequired(edges[i]));
      }
    }
    return None;
  }

  /** The block of one edge: its clears. */
  method EmitClear(m: Mutation, e: Edge, clear: seq<EdgeSpec>) returns (r: seq<EdgeSpec>)
    ensures forall s :: ApplyClears(r, e, s) == ClearOutcome(m.State(), e, ApplyClears(clear, e, s))
    ensures forall f, s :: f != e ==> ApplyClears(r, f, s) == ApplyClears(clear, f, s)
  {
    r := clear;
    if e in m.cleared {
      r := r + [EdgeSpec(e, [])];
    }
    if !e.Rel().M2O? {
      var nodes := Range(In(m.removed, e));
      if |nodes| > 0 && e !in m.cleared {
        assert Elems(nodes) == In(m.removed, e);
        r := r + [EdgeSpec(e, nodes)];
      }
    }
  }

  /** The block of one edge: its adds. */
  method EmitAdd(m: Mutation, e: Edge, add: seq<EdgeSpec>) returns (r: seq<EdgeSpec>)
    ensures forall s :: ApplyAdds(r, e, s) == AddOutcome(m.State(), e, ApplyAdds(add, e, s))
    ensures forall f, s :: f != e ==> ApplyAdds(r, f, s) == ApplyAdds(add, f, s)
  {
    r := add;
    var nodes;
    if e.Rel().M2O? {
      nodes := if e in m.refs then [m.refs[e]] else [];
    } else {
      nodes := Range(In(m.added, e));
    }
    if |nodes| > 0 {
      r := r + [EdgeSpec(e, nodes)];
    }
  }

  /** The edge part of sqlSave: whatever the store holds, applying it leaves what the log asks for. */
  method EmitEdges(m: Mutation) returns (clear: seq<EdgeSpec>, add: seq<EdgeSpec>)
    ensures forall e, s :: e in EdgesOf(m.typ) ==> ApplyClears(clear, e, s) == ClearOutcome(m.State(), e, s)
    ensures forall e, s :: e in EdgesOf(m.typ) ==> ApplyAdds(add, e, s) == AddOutcome(m.State(), e, s)
  {
    var edges := EdgesOf(m.typ);
    EdgesOfOwner(m.typ);
    clear, add := [], [];
    var i := 0;
    while i < |edges|
      invariant 0 <= i <= |edges|
      invariant forall k, s :: 0 <= k < i ==> ApplyClears(clear, edges[k], s) == ClearOutcome(m.State(), edges[k], s)
      invariant forall k, s :: 0 <= k < i ==> ApplyAdds(add, edges[k], s) == AddOutcome(m.State(), edges[k], s)
      invariant forall k, s :: i <= k < |edges| ==> ApplyClears(clear, edges[k], s) == s
      invariant forall k, s :: i <= k < |edges| ==> ApplyAdds(add, edges[k], s) == s
    {
      clear := EmitClear(m, edges[i], clear);
      add := EmitAdd(m, edges[i], add);
      i := i + 1;
    }
  }

  /** The block of one numeric column: an assignment, then an increment. */
  method EmitField(m: Mutation, c: Column, sets: seq<FieldSpec>, adds: seq<FieldSpec>)
    returns (moreSets: seq<FieldSpec>, moreAdds: seq<FieldSpec>)
    ensures forall x :: ApplySets(moreSets, c, x) == if c in m.sets then m.sets[c] else ApplySets(sets, c, x)
    ensures forall x ::
      ApplyDeltas(moreAdds, c, x) == ApplyDeltas(adds, c, x) + if c in m.deltas then m.deltas[c] else 0
    ensures forall d, x :: d != c ==> ApplySets(moreSets, d, x) == ApplySets(sets, d, x)
    ensures forall d, x :: d != c ==> ApplyDeltas(moreAdds, d, x) == ApplyDeltas(adds, d, x)
  {
    moreSets, moreAdds := sets, adds;
    if c in m.sets {
      moreSets := moreSets + [FieldSpec(c, m.sets[c])];
    }
    if c in m.deltas {
      moreAdds := moreAdds + [FieldSpec(c, m.deltas[c])];
    }
  }

  /** The field part of sqlSave. */
  method EmitFields(m: Mutation) returns (sets: seq<FieldSpec>, adds: seq<FieldSpec>)
    ensures forall c, x :: c in NumericColumns(m.typ) ==>
      ApplyDeltas(adds, c, ApplySets(sets, c, x)) == NumberOutcome(m.State(), c, x)
  {
    var columns := NumericColumns(m.typ);
    assert Distinct(columns);
    sets, adds := [], [];
    var i := 0;
    while i < |columns|
      invariant 0 <= i <= |columns|
      invariant forall k, x :: 0 <= k < i ==>
        ApplySets(sets, columns[k], x) == if columns[k] in m.sets then m.sets[columns[k]] else x
      invariant forall k, x :: 0 <= k < i ==>
        ApplyDeltas(adds, columns[k], x) == x + if columns[k] in m.deltas then m.deltas[columns[k]] else 0
      invariant forall k, x :: i <= k < |columns| ==> ApplySets(sets, columns[k], x) == x
      invariant forall k, x :: i <= k < |columns| ==> ApplyDeltas(adds, columns[k], x) == x
    {
      sets, adds := EmitField(m, columns[i], sets, adds);
      i := i + 1;
    }
  }

  /** The block of any other column: an assignment, or a clear, or both. */
  method EmitValue(m: Mutation, c: Column, plain: seq<(Column, Value)>, nulls: seq<Column>)
    returns (morePlain: seq<(Column, Value)>, moreNulls: seq<Column>)
    ensures forall x :: ApplyPlain(morePlain, c, x) == if c in m.values then m.values[c] else ApplyPlain(plain, c, x)
    ensures forall d, x :: d != c ==> ApplyPlain(morePlain, d, x) == ApplyPlain(plain, d, x)
    ensures forall d :: d in moreNulls <==> d in nulls || (d == c && c in m.nulled)
  {
    morePlain, moreNulls := plain, nulls;
    if c in m.values {
      morePlain := morePlain + [(c, m.values[c])];
    }
    if c in m.nulled {
      moreNulls := moreNulls + [c];
    }
  }

  /** The assignments and clears of all other columns. */
  method EmitPlain(m: Mutation) returns (plain: seq<(Column, Value)>, nulls: seq<Column>)
    ensures forall c, x :: c in PlainColumns(m.typ) ==>
      ApplyPlain(plain, c, x) == if c in m.values then m.values[c] else x
    ensures forall c :: c in nulls <==> c in PlainColumns(m.typ) && c in m.nulled
  {
    var columns := PlainColumns(m.typ);
    assert Distinct(columns);
    plain, nulls := [], [];
    for i := 0 to |columns|
      invariant forall k, x :: 0 <= k < i ==>
        ApplyPlain(plain, columns[k], x) == if columns[k] in m.values then m.values[columns[k]] else x
      invariant forall k, x :: i <= k < |columns| ==> ApplyPlain(plain, columns[k], x) == x
      invariant forall c :: c in nulls <==> c in columns[..i] && c in m.nulled
    {
      assert columns[..i + 1] == columns[..i] + [columns[i]];
      plain, nulls := EmitValue(m, columns[i], plain, nulls);
    }
    assert columns[..|columns|] == columns;
  }

  /** sqlSave up to the call of the library: refused exactly if check refuses; otherwise a
      specification that leaves, from whatever is stored, what the log asks for. */
  method Compile(m: Mutation) returns (r: CompileResult)
    ensures r.Compiled? <==>
      && (forall c :: c in PlainColumns(m.typ) ==> !Invalid(m.typ, m.State(), c))
      && forall e :: e in EdgesOf(m.typ) ==> !Refused(m.State(), e)
    ensures r.NotCompiled? ==>
      match r.why
      case InvalidValue(c) => c in PlainColumns(m.typ) && Invalid(m.typ, m.State(), c)
      case ClearingRequired(e) => e in EdgesOf(m.typ) && Refused(m.State(), e)
    ensures r.Compiled? ==> forall e, s :: e in EdgesOf(m.typ) ==>
      && ApplyClears(r.spec.clear, e, s) == ClearOutcome(m.State(), e, s)
      && ApplyAdds(r.spec.add, e, s) == AddOutcome(m.State(), e, s)
    ensures r.Compiled? ==> forall c, x :: c in NumericColumns(m.typ) ==>
      NumberAfter(r.spec, c, x) == NumberOutcome(m.State(), c, x)
    ensures r.Compiled? ==> forall c, x, nullLast :: c in PlainColumns(m.typ) ==>
      ValueAfter(r.spec, nullLast, c, x) == ValueOutcome(m.State(), nullLast, c, x)
  {
    hide Invalid, Refused;
    var bad := Check(m);
    if bad.Some? {
      return NotCompiled(bad.value);
    }
    var plain, nulls := EmitPlain(m);
    var sets, adds := EmitFields(m);
    var clear, add := EmitEdges(m);
    r := Compiled(Spec(plain, nulls, sets, adds, clear, add));
  }

  // ---------------------------------------------------------------- replaying the calls

  predicate About(call: Call, e: Edge) {
    match call
    case AddIds(f, _) => f == e
    case RemoveIds(f, _) => f == e
    case SetId(f, _) => f == e
    case ClearEdge(f) => f == e
    case ResetEdge(f) => f == e
    case ResetId(f) => f == e && e.Rel().M2O?
    case _ => false
  }

  /** The calls about edge `e` since it was last reset; resetting only the id of a to-one edge
      takes back the calls that set it. */
  function Since(calls: seq<Call>, e: Edge): seq<Call> {
    if calls == [] then []
    else
      var rest, last := Since(calls[..|calls| - 1], e), calls[|calls| - 1];
      if last == ResetEdge(e) then []
      else if !About(last, e) then rest
      else if last.ResetId? then WithoutSets(rest)
      else rest + [last]
  }

  function WithoutSets(seg: seq<Call>): seq<Call> {
    if seg == [] then []
    else WithoutSets(seg[..|seg| - 1]) + if seg[|seg| - 1].SetId? then [] else [seg[|seg| - 1]]
  }

  predicate Clears(seg: seq<Call>) {
    exists i :: 0 <= i < |seg| && seg[i].ClearEdge?
  }

  predicate Sets(seg: seq<Call>) {
    exists i :: 0 <= i < |seg| && seg[i].SetId?
  }

  /** The additions and removals alone, one by one. */
  ghost function Replay(seg: seq<Call>, s: set<Value>): set<Value> {
    if seg == [] then s
    else
      var rest, last := Replay(seg[..|seg| - 1], s), seg[|seg| - 1];
      if last.AddIds? then rest + Elems(last.ids) else if last.RemoveIds? then rest - Elems(last.ids) else rest
  }

  /** Every call one by one, a clear where it happened. */
  ghost function ReplayInOrder(seg: seq<Call>, s: set<Value>): set<Value> {
    if seg == [] then s
    else
      var rest, last := ReplayInOrder(seg[..|seg| - 1], s), seg[|seg| - 1];
      match last
      case AddIds(_, ids) => rest + Elems(ids)
      case RemoveIds(_, ids) => rest - Elems(ids)
      case ClearEdge(_) => {}
      case _ => rest
  }

  /** The recorded additions and removals of edge `e`, applied to a set of links. */
  ghost function Recorded(l: Log, e: Edge, s: set<Value>): set<Value> {
    (s - In(l.removed, e)) + In(l.added, e)
  }

  /** One more call on a to-many edge is one more step of the replay. */
  lemma RecordedStep(l: Log, call: Call, e: Edge, s: set<Value>)
    requires !e.Rel().M2O?
    ensures Recorded(Step(l, call), e, s) ==
      if call == ResetEdge(e) then s
      else if About(call, e) && call.AddIds? then Recorded(l, e, s) + Elems(call.ids)
      else if About(call, e) && call.RemoveIds? then Recorded(l, e, s) - Elems(call.ids)
      else Recorded(l, e, s)
  {
  }

  lemma ClearedStep(l: Log, call: Call, e: Edge)
    ensures e in Step(l, call).cleared <==> call != ResetEdge(e) && (e in l.cleared || call == ClearEdge(e))
  {
  }

  /** What the log records about a to-many edge: the last word of the calls on every id. */
  lemma {:induction false} LogReplays(calls: seq<Call>, e: Edge, s: set<Value>)
    requires !e.Rel().M2O?
    ensures e in Run(EMPTY, calls).cleared <==> Clears(Since(calls, e))
    ensures Replay(Since(calls, e), s) == Recorded(Run(EMPTY, calls), e, s)
  {
    hide Step, Recorded, Clears;
    RecordedEmpty(e, s);
    if calls == [] {
    } else {
      var front, last := calls[..|calls| - 1], calls[|calls| - 1];
      LogReplays(front, e, s);
      RecordedStep(Run(EMPTY, front), last, e, s);
      ClearedStep(Run(EMPTY, front), last, e);
      var seg := Since(front, e);
      assert (seg + [last])[..|seg|] == seg;
      ClearsSnoc(seg, last);
    }
  }

  lemma RecordedEmpty(e: Edge, s: set<Value>)
    ensures Recorded(EMPTY, e, s) == s && !Clears([])
  {
  }

  lemma ClearsSnoc(seg: seq<Call>, last: Call)
    ensures Clears(seg + [last]) <==> Clears(seg) || last.ClearEdge?
    ensures Sets(seg + [last]) <==> Sets(seg) || last.SetId?
  {
    assert (seg + [last])[|seg|] == last;
    if Clears(seg) {
      var i :| 0 <= i < |seg| && seg[i].ClearEdge?;
      assert (seg + [last])[i].ClearEdge?;
    }
    if Sets(seg) {
      var i :| 0 <= i < |seg| && seg[i].SetId?;
      assert (seg + [last])[i].SetId?;
    }
  }

  /** Edge log refinement: for every sequence of calls and every stored set of links, saving leaves
      the replay of the additions and removals since the last reset, with a clear moved to the
      front. */
  lemma ClearFirst(calls: seq<Call>, e: Edge, s: set<Value>)
    requires !e.Rel().M2O?
    ensures Outcome(Run(EMPTY, calls), e, s) == Replay(Since(calls, e), if Clears(Since(calls, e)) then {} else s)
  {
    LogReplays(calls, e, s);
    LogReplays(calls, e, {});
  }

  /** The calls before and after the last clear. */
  function BeforeClear(seg: seq<Call>): seq<Call> {
    if seg == [] then []
    else if seg[|seg| - 1].ClearEdge? then seg[..|seg| - 1] else BeforeClear(seg[..|seg| - 1])
  }

  function AfterClear(seg: seq<Call>): seq<Call> {
    if seg == [] || seg[|seg| - 1].ClearEdge? then [] else AfterClear(seg[..|seg| - 1]) + [seg[|seg| - 1]]
  }

  predicate Mentions(call: Call, x: Value) {
    (call.AddIds? || call.RemoveIds?) && x in call.ids
  }

  predicate Mentioned(seg: seq<Call>, x: Value) {
    seg != [] && (Mentions(seg[|seg| - 1], x) || Mentioned(seg[..|seg| - 1], x))
  }

  lemma {:induction false} InOrder(seg: seq<Call>, s: set<Value>)
    ensures ReplayInOrder(seg, s) == if Clears(seg) then Replay(AfterClear(seg), {}) else Replay(seg, s)
  {
    hide Clears, Replay;
    if seg == [] {
      InOrderEmpty(s);
    } else {
      var front, last := seg[..|seg| - 1], seg[|seg| - 1];
      InOrder(front, s);
      assert seg == front + [last];
      ClearsSnoc(front, last);
      InOrderEmpty({});
      ReplaySnoc(front, last, s);
      ReplaySnoc(AfterClear(front), last, {});
    }
  }

  lemma InOrderEmpty(s: set<Value>)
    ensures !Clears([]) && Replay([], s) == s
  {
  }

  lemma ReplaySnoc(seg: seq<Call>, last: Call, s: set<Value>)
    ensures Replay(seg + [last], s) ==
      if last.AddIds? then Replay(seg, s) + Elems(last.ids)
      else if last.RemoveIds? then Replay(seg, s) - Elems(last.ids)
      else Replay(seg, s)
  {
    assert (seg + [last])[..|seg|] == seg;
  }

  lemma {:induction false} SplitAtClear(seg: seq<Call>, s: set<Value>)
    requires Clears(seg)
    ensures Replay(seg, s) == Replay(AfterClear(seg), Replay(BeforeClear(seg), s))
  {
    if seg == [] {
    } else {
      var front, last := seg[..|seg| - 1], seg[|seg| - 1];
      assert seg == front + [last];
      ClearsSnoc(front, last);
      if !last.ClearEdge? {
        SplitAtClear(front, s);
        assert (AfterClear(front) + [last])[..|AfterClear(front)|] == AfterClear(front);
      }
    }
  }

  /** The last call that mentions an id decides about it; an id never mentioned stays as it was. */
  lemma {:induction false} LastWord(seg: seq<Call>, s: set<Value>, t: set<Value>, x: Value)
    ensures Mentioned(seg, x) ==> (x in Replay(seg, s) <==> x in Replay(seg, t))
    ensures !Mentioned(seg, x) ==> (x in Replay(seg, s) <==> x in s)
  {
    if seg == [] {
    } else {
      LastWord(seg[..|seg| - 1], s, t, x);
    }
  }

  /** Saving is not always the calls in the order they were made: a clear forgets nothing that was
      added before it. The two agree exactly if every id still waiting to be added when the edge
      was last cleared is mentioned again afterwards. */
  lemma InOrderExactly(calls: seq<Call>, e: Edge, s: set<Value>)
    requires !e.Rel().M2O?
    ensures var seg := Since(calls, e);
            Outcome(Run(EMPTY, calls), e, s) == ReplayInOrder(seg, s)
            <==> (Clears(seg) ==> forall x :: x in Replay(BeforeClear(seg), {}) ==> Mentioned(AfterClear(seg), x))
  {
    var seg := Since(calls, e);
    ClearFirst(calls, e, s);
    InOrder(seg, s);
    if Clears(seg) {
      SplitAtClear(seg, {});
      var waiting, after := Replay(BeforeClear(seg), {}), AfterClear(seg);
      forall x: Value
        ensures Mentioned(after, x) ==> (x in Replay(after, waiting) <==> x in Replay(after, {}))
        ensures !Mentioned(after, x) ==> (x in Replay(after, waiting) <==> x in waiting) && x !in Replay(after, {})
      {
        LastWord(after, waiting, {}, x);
        LastWord(after, {}, waiting, x);
      }
    }
  }

  /** For instance: an id added and then cleared away is linked nevertheless, and over the join table of
      groups nothing stops it. */
  lemma ClearKeepsAdded(e: Edge, x: Value, s: set<Value>)
    requires !e.Rel().M2O?
    ensures var calls := [AddIds(e, [x]), ClearEdge(e)];
            && Outcome(Run(EMPTY, calls), e, s) == {x} && ReplayInOrder(Since(calls, e), s) == {}
            && (e.Rel().M2M? && e.Rel().table == UserGroup ==> !Violates(Run(EMPTY, calls), e, s))
  {
    var add, clear := AddIds(e, [x]), ClearEdge(e);
    var one, both := [add], [add, clear];
    assert one[..|one| - 1] == [] && both[..|both| - 1] == one;
    assert Run(EMPTY, one) == Step(Run(EMPTY, one[..|one| - 1]), add);
    assert Run(EMPTY, both) == Step(Run(EMPTY, both[..|both| - 1]), clear);
    assert Since(one, e) == Since(one[..|one| - 1], e) + [add] == one;
    assert Since(both, e) == Since(both[..|both| - 1], e) + [clear] == both;
    assert ReplayInOrder(both, s) == {};
  }

  // ---------------------------------------------------------------- to-one edges

  ghost function ReplayRef(seg: seq<Call>, s: set<Value>): set<Value> {
    if seg == [] then s
    else
      var rest, last := ReplayRef(seg[..|seg| - 1], s), seg[|seg| - 1];
      if last.SetId? then {last.id} else if last.ClearEdge? then {} else rest
  }

  /** Without calls that set it, a to-one edge is cleared or as it was. */
  lemma {:induction false} WithoutSetsReplays(seg: seq<Call>, s: set<Value>)
    ensures !Sets(WithoutSets(seg)) && (Clears(WithoutSets(seg)) <==> Clears(seg))
    ensures ReplayRef(WithoutSets(seg), s) == if Clears(seg) then {} else s
  {
    if seg == [] {
    } else {
      var front, last := seg[..|seg| - 1], seg[|seg| - 1];
      WithoutSetsReplays(front, s);
      assert seg == front + [last];
      ClearsSnoc(front, last);
      ClearsSnoc(WithoutSets(front), last);
      var more := WithoutSets(front) + [last];
      assert more[..|more| - 1] == WithoutSets(front);
      assert WithoutSets(front) + [] == WithoutSets(front);
    }
  }

  lemma RefStep(l: Log, call: Call, e: Edge)
    ensures var next := Step(l, call).refs;
            if call == ResetEdge(e) || call == ResetId(e) then e !in next
            else if call.SetId? && call.e == e then e in next && next[e] == call.id
            else (e in next <==> e in l.refs) && (e in next ==> next[e] == l.refs[e])
  {
  }

  lemma {:induction false} RefReplays(calls: seq<Call>, e: Edge, s: set<Value>)
    requires e.Rel().M2O?
    ensures var l, seg := Run(EMPTY, calls), Since(calls, e);
            && (e in l.cleared <==> Clears(seg)) && (e in l.refs <==> Sets(seg))
            && (!Clears(seg) ==> ReplayRef(seg, s) == if e in l.refs then {l.refs[e]} else s)
            && (Clears(seg) && !Sets(seg) ==> ReplayRef(seg, s) == {})
  {
    hide Step;
    if calls == [] {
    } else {
      var front, last := calls[..|calls| - 1], calls[|calls| - 1];
      RefReplays(front, e, s);
      RefStep(Run(EMPTY, front), last, e);
      ClearedStep(Run(EMPTY, front), last, e);
      var seg := Since(front, e);
      assert (seg + [last])[..|seg|] == seg;
      ClearsSnoc(seg, last);
      WithoutSetsReplays(seg, s);
    }
  }

  /** A to-one edge: an update is refused exactly if the edge was both set and cleared since its
      last reset, and otherwise leaves the replay of the calls. */
  lemma SaveReplaysRef(calls: seq<Call>, e: Edge, s: set<Value>)
    requires e.Rel().M2O?
    ensures var l, seg := Run(EMPTY, calls), Since(calls, e);
            && (Refused(l, e) <==> Clears(seg) && Sets(seg))
            && (!Refused(l, e) ==> Outcome(l, e, s) == ReplayRef(seg, s))
  {
    RefReplays(calls, e, s);
  }

  // ---------------------------------------------------------------- numeric fields

  /** The calls on column `c` since it was last reset. */
  function NumberCalls(calls: seq<Call>, c: Column): seq<Call> {
    if calls == [] then []
    else
      var rest, last := NumberCalls(calls[..|calls| - 1], c), calls[|calls| - 1];
      if last == ResetNumber(c) then []
      else if (last.SetNumber? || last.AddNumber?) && last.c == c then rest + [last] else rest
  }

  function ReplayNumber(seg: seq<Call>, x: int): int {
    if seg == [] then x
    else
      var rest, last := ReplayNumber(seg[..|seg| - 1], x), seg[|seg| - 1];
      if last.SetNumber? then last.n else if last.AddNumber? then rest + last.n else rest
  }

  /** The increments since the last assignment. */
  function Pending(seg: seq<Call>): int {
    if seg == [] then 0
    else
      var last := seg[|seg| - 1];
      if last.SetNumber? then 0 else Pending(seg[..|seg| - 1]) + if last.AddNumber? then last.n else 0
  }

  lemma WrapSum(x: int, n: int)
    ensures Wrap(Wrap(x) + n) == Wrap(x + n)
    ensures Wrap(x) == x <==> InRange(x)
  {
    var q := (x + TWO_TO_THE_63) / TWO_TO_THE_64;
    assert Wrap(x) == x - q * TWO_TO_THE_64;
    ModShift(x + n + TWO_TO_THE_63, q);
  }

  lemma ModShift(y: int, q: int)
    ensures (y - q * TWO_TO_THE_64) % TWO_TO_THE_64 == y % TWO_TO_THE_64
  {
    var k := y / TWO_TO_THE_64;
    assert y - q * TWO_TO_THE_64 == (k - q) * TWO_TO_THE_64 + y % TWO_TO_THE_64;
  }

  ghost predicate OfNumber(call: Call, c: Column) {
    (call.SetNumber? || call.AddNumber?) && call.c == c
  }

  /** One more call on a numeric column. */
  lemma BaseStep(l: Log, call: Call, c: Column, x: int)
    ensures Base(Step(l, call), c, x) ==
      if call == ResetNumber(c) then x else if OfNumber(call, c) && call.SetNumber? then call.n else Base(l, c, x)
  {
  }

  lemma DeltaStep(l: Log, call: Call, c: Column)
    requires Allowed(call)
    ensures Delta(Step(l, call), c) ==
      if call == ResetNumber(c) then 0
      else if OfNumber(call, c) then if call.SetNumber? then 0 else Wrap(Delta(l, c) + call.n)
      else Delta(l, c)
  {
    hide Wrap;
    if call.AddNumber? {
      WrapSum(call.n, 0);
    }
  }

  lemma {:induction false} NumberReplays(calls: seq<Call>, c: Column, x: int)
    requires forall i :: 0 <= i < |calls| ==> Allowed(calls[i])
    ensures Delta(Run(EMPTY, calls), c) == Wrap(Pending(NumberCalls(calls, c)))
    ensures ReplayNumber(NumberCalls(calls, c), x) == Base(Run(EMPTY, calls), c, x) + Pending(NumberCalls(calls, c))
  {
    hide Wrap, Step, Base, Delta, Allowed;
    NumberEmpty(c, x);
    if calls == [] {
    } else {
      var front, last := calls[..|calls| - 1], calls[|calls| - 1];
      NumberReplays(front, c, x);
      var seg := NumberCalls(front, c);
      assert (seg + [last])[..|seg|] == seg;
      BaseStep(Run(EMPTY, front), last, c, x);
      DeltaStep(Run(EMPTY, front), last, c);
      if OfNumber(last, c) {
        WrapSum(Pending(seg), last.n);
      }
    }
  }

  lemma NumberEmpty(c: Column, x: int)
    ensures Base(EMPTY, c, x) == x && Delta(EMPTY, c) == 0 == Wrap(0)
  {
  }

  /** A numeric field: the saved number agrees with the replay of the calls modulo 2^64, and is that
      very number exactly if the increments since the last assignment do not overflow. */
  lemma SaveReplaysNumber(calls: seq<Call>, c: Column, x: int)
    requires forall i :: 0 <= i < |calls| ==> Allowed(calls[i])
    ensures var l, seg := Run(EMPTY, calls), NumberCalls(calls, c);
            && Wrap(NumberOutcome(l, c, x)) == Wrap(ReplayNumber(seg, x))
            && (NumberOutcome(l, c, x) == ReplayNumber(seg, x) <==> InRange(Pending(seg)))
  {
    hide Wrap, InRange, Run, Pending, NumberCalls, ReplayNumber, Base, Delta;
    NumberReplays(calls, c, x);
    var l, seg := Run(EMPTY, calls), NumberCalls(calls, c);
    assert NumberOutcome(l, c, x) == Base(l, c, x) + Delta(l, c);
    WrapSum(Pending(seg), Base(l, c, x));
  }

  /** For instance: two increments that add up to 2^63 wrap around. */
  lemma IncrementsOverflow(c: Column, x: int)
    ensures var calls := [AddNumber(c, 9223372036854775807), AddNumber(c, 1)];
            && (forall i :: 0 <= i < |calls| ==> Allowed(calls[i]))
            && ReplayNumber(NumberCalls(calls, c), x) == x + 9223372036854775808
            && NumberOutcome(Run(EMPTY, calls), c, x) == x - 9223372036854775808
  {
    hide Wrap, Step, Base, Delta;
    WrapExamples();
    var first, second := AddNumber(c, 9223372036854775807), AddNumber(c, 1);
    var one, both := [first], [first, second];
    assert one[..|one| - 1] == [] && both[..|both| - 1] == one;
    NumberEmpty(c, x);
    BaseStep(EMPTY, first, c, x);
    DeltaStep(EMPTY, first, c);
    assert Run(EMPTY, one) == Step(Run(EMPTY, one[..|one| - 1]), first);
    BaseStep(Run(EMPTY, one), second, c, x);
    DeltaStep(Run(EMPTY, one), second, c);
    assert Run(EMPTY, both) == Step(Run(EMPTY, both[..|both| - 1]), second);
    assert NumberCalls(one, c) == NumberCalls(one[..|one| - 1], c) + [first] == one;
    assert NumberCalls(both, c) == NumberCalls(both[..|both| - 1], c) + [second] == both;
    assert ReplayNumber(both, x) == ReplayNumber(both[..|both| - 1], x) + 1;
    assert ReplayNumber(one, x) == ReplayNumber(one[..|one| - 1], x) + 9223372036854775807;
  }

  // ---------------------------------------------------------------- NOT NULL constraints

  /** What the calls, replayed one by one since the last reset of the edge, leave of a set of
      links: with a clear first on a to-many edge, in order on a to-one edge. */
  ghost function Replayed(calls: seq<Call>, e: Edge, s: set<Value>): set<Value> {
    var seg := Since(calls, e);
    if e.Rel().M2O? then ReplayRef(seg, s) else Replay(seg, if Clears(seg) then {} else s)
  }

  lemma OutcomeReplayed(calls: seq<Call>, e: Edge, s: set<Value>)
    requires !Refused(Run(EMPTY, calls), e)
    ensures Outcome(Run(EMPTY, calls), e, s) == Replayed(calls, e, s)
  {
    if e.Rel().M2O? {
      SaveReplaysRef(calls, e, s);
    } else {
      ClearFirst(calls, e, s);
    }
  }

  predicate Removes(seg: seq<Call>, x: Value) {
    seg != [] && ((seg[|seg| - 1].RemoveIds? && x in seg[|seg| - 1].ids) || Removes(seg[..|seg| - 1], x))
  }

  lemma RemovedStep(l: Log, call: Call, e: Edge)
    ensures In(Step(l, call).removed, e) ==
      if call == ResetEdge(e) then {}
      else if call.RemoveIds? && call.e == e then In(l.removed, e) + Elems(call.ids)
      else In(l.removed, e)
  {
  }

  lemma {:induction false} RemovedReplays(calls: seq<Call>, e: Edge, x: Value)
    requires !e.Rel().M2O?
    ensures x in In(Run(EMPTY, calls).removed, e) <==> Removes(Since(calls, e), x)
  {
    hide Step;
    if calls == [] {
    } else {
      var front, last := calls[..|calls| - 1], calls[|calls| - 1];
      RemovedReplays(front, e, x);
      RemovedStep(Run(EMPTY, front), last, e);
      var seg := Since(front, e);
      assert (seg + [last])[..|seg|] == seg;
    }
  }

  /** What stands in the way of an update in the calls of its user: they clear a to-one edge; they clear
      a one-to-many edge that has links, or remove one of them, even if it is added again; they add
      anything at all over a join table that needs more. */
  ghost predicate Blocked(calls: seq<Call>, e: Edge, s: set<Value>) {
    var seg := Since(calls, e);
    match e.Rel()
    case M2O(_) => Clears(seg)
    case O2M(_) => if Clears(seg) then s != {} else exists x :: x in s && Removes(seg, x)
    case M2M(table, _, _) => NeedsMore(table) && Replay(seg, {}) != {}
  }

  /** An update that passes the check breaks a NOT NULL constraint exactly then. */
  lemma StoppedByStore(calls: seq<Call>, e: Edge, s: set<Value>)
    requires !Refused(Run(EMPTY, calls), e)
    ensures Violates(Run(EMPTY, calls), e, s) <==> Blocked(calls, e, s)
  {
    hide Run, Since, Replay, Clears, Sets, Removes;
    match e.Rel()
    case M2O(_) => RefReplays(calls, e, s);
    case M2M(_, _, _) => LogReplays(calls, e, {});
    case O2M(_) =>
      LogReplays(calls, e, {});
      RemovedSome(calls, e, s);
  }

  lemma RemovedSome(calls: seq<Call>, e: Edge, s: set<Value>)
    requires !e.Rel().M2O?
    ensures s * In(Run(EMPTY, calls).removed, e) != {} <==> exists x :: x in s && Removes(Since(calls, e), x)
  {
    hide Run, Since, Removes;
    var removed := In(Run(EMPTY, calls).removed, e);
    if s * removed != {} {
      var x :| x in s * removed;
      RemovedReplays(calls, e, x);
    }
    if x :| x in s && Removes(Since(calls, e), x) {
      RemovedReplays(calls, e, x);
      assert x in s * removed;
    }
  }

  /** So no row ever loses a link its table requires: an update that passes the check and breaks no
      constraint leaves a to-one edge linked, and every row on a one-to-many edge where it is. */
  lemma RequiredLinksStay(calls: seq<Call>, e: Edge, s: set<Value>)
    requires !Refused(Run(EMPTY, calls), e) && !Blocked(calls, e, s)
    ensures e.Rel().M2O? && s != {} ==> Replayed(calls, e, s) != {}
    ensures e.Rel().O2M? ==> s <= Replayed(calls, e, s)
  {
    var l := Run(EMPTY, calls);
    StoppedByStore(calls, e, s);
    OutcomeReplayed(calls, e, s);
    if e.Rel().M2O? {
      RefReplays(calls, e, s);
    } else if e.Rel().O2M? {
      assert s <= ClearOutcome(l, e, s);
    }
  }

  /** The check alone does not see to that: it lets an update through that clears a required edge and
      does nothing else, and only the store refuses it. */
  lemma ClearingPassesCheck(e: Edge, s: set<Value>)
    requires e.Rel().M2O?
    ensures var l := Run(EMPTY, [ClearEdge(e)]); !Refused(l, e) && Violates(l, e, s)
  {
    var calls := [ClearEdge(e)];
    assert calls[..|calls| - 1] == [];
    assert Run(EMPTY, calls) == Step(Run(EMPTY, calls[..|calls| - 1]), ClearEdge(e));
  }

  /** Nothing can be added over the edges between users and systems: the join row would have no
      username. */
  lemma JoinRowIncomplete(e: Edge, x: Value, s: set<Value>)
    requires e == User_Systems || e == System_Users
    ensures var l := Run(EMPTY, [AddIds(e, [x])]); !Refused(l, e) && Violates(l, e, s)
  {
    var calls := [AddIds(e, [x])];
    assert calls[..|calls| - 1] == [];
    assert Run(EMPTY, calls) == Step(Run(EMPTY, calls[..|calls| - 1]), calls[0]);
    assert x in Elems([x]);
  }

  // ---------------------------------------------------------------- fields that are only assigned

  /** What the calls leave assigned to a column that is only assigned: the value of the last setter, or
      NULL if the field was cleared since, unless it was reset. */
  function Latest(calls: seq<Call>, c: Column): Option<Value> {
    if calls == [] then None
    else
      match calls[|calls| - 1]
      case SetValue(d, v) => if d == c then Some(v) else Latest(calls[..|calls| - 1], c)
      case ClearValue(d) => if d == c then Some(Null) else Latest(calls[..|calls| - 1], c)
      case ResetValue(d) => if d == c then None else Latest(calls[..|calls| - 1], c)
      case _ => Latest(calls[..|calls| - 1], c)
  }

  /** The field was cleared since it was last reset. */
  predicate Nulled(calls: seq<Call>, c: Column) {
    calls != [] &&
    match calls[|calls| - 1]
    case ClearValue(d) => d == c || Nulled(calls[..|calls| - 1], c)
    case ResetValue(d) => d != c && Nulled(calls[..|calls| - 1], c)
    case _ => Nulled(calls[..|calls| - 1], c)
  }

  lemma ValueStep(l: Log, call: Call, c: Column)
    ensures var next := Step(l, call).values;
            if call.SetValue? && call.c == c then c in next && next[c] == call.v
            else if call == ResetValue(c) || call == ClearValue(c) then c !in next
            else (c in next <==> c in l.values) && (c in next ==> next[c] == l.values[c])
    ensures c in Step(l, call).nulled <==> call == ClearValue(c) || (call != ResetValue(c) && c in l.nulled)
  {
  }

  lemma {:induction false} ValueReplays(calls: seq<Call>, c: Column)
    requires forall i :: 0 <= i < |calls| ==> Allowed(calls[i])
    ensures var l := Run(EMPTY, calls);
            && (c in l.values <==> Latest(calls, c).Some? && Latest(calls, c).value != Null)
            && (c in l.values ==> Latest(calls, c) == Some(l.values[c]))
            && (c in l.nulled <==> Nulled(calls, c))
  {
    hide Step, Allowed;
    if calls == [] {
    } else {
      var front, last := calls[..|calls| - 1], calls[|calls| - 1];
      ValueReplays(front, c);
      ValueStep(Run(EMPTY, front), last, c);
      assert last.SetValue? ==> last.v != Null by {
        NotNull(last);
      }
    }
  }

  lemma NotNull(call: Call)
    requires Allowed(call)
    ensures call.SetValue? ==> call.v != Null
  {
  }

  /** What was cleared last is cleared, and what is cleared was not left alone. */
  lemma {:induction false} NulledLatest(calls: seq<Call>, c: Column)
    requires forall i :: 0 <= i < |calls| ==> Allowed(calls[i])
    ensures Latest(calls, c) == Some(Null) ==> Nulled(calls, c)
    ensures Nulled(calls, c) ==> Latest(calls, c).Some?
  {
    hide Allowed;
    if calls == [] {
    } else {
      NulledLatest(calls[..|calls| - 1], c);
      NotNull(calls[|calls| - 1]);
    }
  }

  /** A field that is only assigned: it is saved as the last of the calls since its last reset left it,
      unless it was cleared and then set again. Then it is sent to the library both as assigned and
      as cleared, and it depends on the library whether it ends up NULL. */
  lemma SaveReplaysValue(calls: seq<Call>, nullLast: bool, c: Column, x: Value)
    requires forall i :: 0 <= i < |calls| ==> Allowed(calls[i])
    ensures ValueOutcome(Run(EMPTY, calls), nullLast, c, x) ==
      if Latest(calls, c).None? then x else if nullLast && Nulled(calls, c) then Null else Latest(calls, c).value
  {
    hide Run, Latest, Nulled, Allowed;
    ValueReplays(calls, c);
    NulledLatest(calls, c);
  }

  /** So whether the last call decides, whatever the library does and whatever is stored, is exactly
      whether the field was not set after it was cleared. */
  lemma LastCallExactly(calls: seq<Call>, c: Column)
    requires forall i :: 0 <= i < |calls| ==> Allowed(calls[i])
    ensures (forall nullLast, x ::
               ValueOutcome(Run(EMPTY, calls), nullLast, c, x)
               == if Latest(calls, c).None? then x else Latest(calls, c).value)
            <==> !(Nulled(calls, c) && Latest(calls, c) != Some(Null))
  {
    hide Run, Latest, Nulled, Allowed, ValueOutcome;
    NulledLatest(calls, c);
    if Nulled(calls, c) && Latest(calls, c) != Some(Null) {
      SaveReplaysValue(calls, true, c, Null);
      assert ValueOutcome(Run(EMPTY, calls), true, c, Null) != Latest(calls, c).value;
    } else {
      forall nullLast, x
        ensures ValueOutcome(Run(EMPTY, calls), nullLast, c, x)
                == if Latest(calls, c).None? then x else Latest(calls, c).value
      {
        SaveReplaysValue(calls, nullLast, c, x);
      }
    }
  }

  /** For instance: a description that is cleared and then set. */
  lemma ClearThenSet(s: string, x: Value)
    ensures var calls := [ClearValue(Description), SetValue(Description, StrV(s))];
            && (forall i :: 0 <= i < |calls| ==> Allowed(calls[i]))
            && Latest(calls, Description) == Some(StrV(s))
            && ValueOutcome(Run(EMPTY, calls), true, Description, x) == Null
  {
    var clear, assign := ClearValue(Description), SetValue(Description, StrV(s));
    var one, both := [clear], [clear, assign];
    assert one[..|one| - 1] == [] && both[..|both| - 1] == one;
    assert Nulled(one, Description) && Nulled(both, Description) == Nulled(both[..|both| - 1], Description);
    SaveReplaysValue(both, true, Description, x);
  }
}
