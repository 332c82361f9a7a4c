/** The change log of a mutation: what a caller of an update builder did to the edges and the
    fields, before anything is saved. */
module Mutation {
  import opened Seqs
  import opened Schema
  import opened Store
  import opened EdgeSpecs
  import opened Migration

  const TWO_TO_THE_63: int := 0x8000_0000_0000_0000
  const TWO_TO_THE_64: int := 0x1_0000_0000_0000_0000

  /** Go's int: 64 bits, wrapping around. */
  function Wrap(x: int): int {
    (x + TWO_TO_THE_63) % TWO_TO_THE_64 - TWO_TO_THE_63
  }

  predicate InRange(x: int) {
    -TWO_TO_THE_63 <= x < TWO_TO_THE_63
  }

  /** The numeric columns of an entity, in schema order. */
  function NumericColumns(typ: EntityType): seq<Column> {
    match typ
    case UserSystem => [Uid, Gid]
    case SystemGroup => [Gid]
    case Inode => [Mode, Uid, Gid, Size, LinkCount, Flags]
    case _ => []
  }

  /** The columns that are only ever assigned, in schema order: texts, times and bytes. */
  function PlainColumns(typ: EntityType): seq<Column> {
    match typ
    case User => [UpdateTime, Username, Provider, ProviderId, JoinDate]
    case System => [UpdateTime, Name, Description, Status]
    case UserSystem => [Username]
    case SystemGroup => [Name]
    case UserGroup => []
    case Inode => [UpdateTime, Atime, Mtime, Ctime, Content]
    case Object => [UpdateTime, Provider, Bucket, StorageKey, Status]
  }

  /** The columns an update may assign: not the primary key, not the creation time, which is immutable,
      and not the foreign keys, which are edges. */
  predicate Updatable(typ: EntityType, c: Column) {
    Declared(typ, c).Some? && c != Id && c != CreateTime && References(typ, c).None?
  }

  /** Together the two lists are exactly those columns: the integers can be incremented. */
  lemma UpdatableMatch(typ: EntityType, c: Column)
    ensures c in NumericColumns(typ) <==> Updatable(typ, c) && SqlKind(Declared(typ, c).value.typ) == KInt
    ensures c in PlainColumns(typ) <==> Updatable(typ, c) && SqlKind(Declared(typ, c).value.typ) != KInt
  {
    hide NumericColumns, PlainColumns, Updatable, SqlKind, Declared;
    if c in NumericColumns(typ) {
      NumericUpdatable(typ, c);
    }
    if c in PlainColumns(typ) {
      PlainUpdatable(typ, c);
    }
    if Updatable(typ, c) {
      UpdatableListed(typ, c);
    }
  }

  lemma NumericUpdatable(typ: EntityType, c: Column)
    requires c in NumericColumns(typ)
    ensures Updatable(typ, c) && SqlKind(Declared(typ, c).value.typ) == KInt
  {
  }

  lemma PlainUpdatable(typ: EntityType, c: Column)
    requires c in PlainColumns(typ)
    ensures Updatable(typ, c) && SqlKind(Declared(typ, c).value.typ) != KInt
  {
    hide PlainColumns, Columns, KeyColumns, KindOf, Declared, References;
    PlainListed(typ, c);
    ColumnsMatch(typ, c);
    KeysMatch(typ, c);
  }

  lemma PlainListed(typ: EntityType, c: Column)
    requires c in PlainColumns(typ)
    ensures c in Columns(typ) && c !in KeyColumns(typ) && c != CreateTime && KindOf(typ, c) != KInt
  {
    hide Declared, References;
  }

  lemma UpdatableListed(typ: EntityType, c: Column)
    requires Updatable(typ, c)
    ensures if SqlKind(Declared(typ, c).value.typ) == KInt then c in NumericColumns(typ) else c in PlainColumns(typ)
  {
  }

  /** Sixty-four bits. */
  lemma WrapExamples()
    ensures Wrap(9223372036854775807) == 9223372036854775807 && Wrap(9223372036854775808) == -9223372036854775808
    ensures InRange(9223372036854775807) && !InRange(9223372036854775808)
    ensures InRange(-9223372036854775808) && !InRange(-9223372036854775809)
  {
  }

  // ---------------------------------------------------------------- the log

  /** One call of a mutation method. */
  datatype Call =
    | AddIds(e: Edge, ids: seq<Value>)
    | RemoveIds(e: Edge, ids: seq<Value>)
    | SetId(e: Edge, id: Value)
    | ClearEdge(e: Edge)
    | ResetEdge(e: Edge)
    | ResetId(e: Edge)
    | SetNumber(c: Column, n: int)
    | AddNumber(c: Column, n: int)
    | ResetNumber(c: Column)
    | SetValue(c: Column, v: Value)
    | ClearValue(c: Column)
    | ResetValue(c: Column)

  /** The fields that may be NULL. */
  const NULLABLE: set<Column> := {Description, Content}

  /** The calls the generated methods allow: ids are added to to-many edges, a to-one edge is set, and
      only a field that may be NULL is cleared. */
  predicate Allowed(call: Call) {
    match call
    case AddIds(e, _) => !e.Rel().M2O?
    case RemoveIds(e, _) => !e.Rel().M2O?
    case SetId(e, _) => e.Rel().M2O?
    case ResetId(e) => e.Rel().M2O?
    case SetNumber(_, n) => InRange(n)
    case AddNumber(_, n) => InRange(n)
    case SetValue(_, v) => v != Null
    case ClearValue(c) => c in NULLABLE
    case _ => true
  }

  lemma NullableMatch(c: Column)
    ensures c in NULLABLE <==> exists typ :: Declared(typ, c).Some? && Declared(typ, c).value.nullable
  {
    if c in NULLABLE {
      assert Declared(System, Description).value.nullable && Declared(Inode, Content).value.nullable;
    }
  }

  /** What the generated methods allow: ids are added to and removed from to-many edges, to-one edges are
      set, everything can be reset, and numbers are those of 64 bits. */
  lemma AllowedCalls(e: Edge, ids: seq<Value>, c: Column, v: Value)
    ensures (Allowed(AddIds(e, ids)) <==> !e.Rel().M2O?) && (Allowed(RemoveIds(e, ids)) <==> !e.Rel().M2O?)
    ensures (Allowed(SetId(e, v)) <==> e.Rel().M2O?) && (Allowed(ResetId(e)) <==> e.Rel().M2O?)
    ensures Allowed(ClearEdge(e)) && Allowed(ResetEdge(e)) && Allowed(ResetNumber(c)) && Allowed(ResetValue(c))
  {
    hide Declared, InRange;
  }

  lemma AllowedValues(c: Column, n: int, v: Value)
    ensures Allowed(SetNumber(c, n)) <==> -9223372036854775808 <= n <= 9223372036854775807
    ensures Allowed(AddNumber(c, n)) <==> -9223372036854775808 <= n <= 9223372036854775807
    ensures Allowed(SetValue(c, v)) <==> v != Null
  {
    hide Declared;
  }

  /** Only nullable columns have a Clear method. */
  lemma AllowedClears(c: Column)
    ensures Allowed(ClearValue(c)) <==> exists typ :: Declared(typ, c).Some? && Declared(typ, c).value.nullable
  {
    hide Declared;
    NullableMatch(c);
  }

  /** The fields of a mutation struct, one map entry per non-nil pointer or map. */
  datatype Log = Log(added: map<Edge, set<Value>>, removed: map<Edge, set<Value>>, refs: map<Edge, Value>,
                     cleared: set<Edge>, sets: map<Column, int>, deltas: map<Column, int>,
                     values: map<Column, Value>, nulled: set<Column>)

  const EMPTY: Log := Log(map[], map[], map[], {}, map[], map[], map[], {})

  /** What one call does to the log. */
  ghost function Step(l: Log, call: Call): Log {
    match call
    case AddIds(e, ids) => l.(added := l.added[e := In(l.added, e) + Elems(ids)])
    case RemoveIds(e, ids) =>
      l.(added := Without(l.added, e, Elems(ids)),
         removed := l.removed[e := In(l.removed, e) + Elems(ids)])
    case SetId(e, id) => l.(refs := l.refs[e := id])
    case ClearEdge(e) => l.(cleared := l.cleared + {e})
    case ResetEdge(e) =>
      l.(added := l.added - {e}, removed := l.removed - {e}, refs := l.refs - {e}, cleared := l.cleared - {e})
    case ResetId(e) => l.(refs := l.refs - {e})
    case SetNumber(c, n) => l.(sets := l.sets[c := n], deltas := l.deltas - {c})
    case AddNumber(c, n) => l.(deltas := l.deltas[c := if c in l.deltas then Wrap(l.deltas[c] + n) else n])
    case ResetNumber(c) => l.(sets := l.sets - {c}, deltas := l.deltas - {c})
    case SetValue(c, v) => l.(values := l.values[c := v])
    case ClearValue(c) => l.(values := l.values - {c}, nulled := l.nulled + {c})
    case ResetValue(c) => l.(values := l.values - {c}, nulled := l.nulled - {c})
  }

  ghost function Run(l: Log, calls: seq<Call>): Log {
    if calls == [] then l else Step(Run(l, calls[..|calls| - 1]), calls[|calls| - 1])
  }

  /** Two maps that agree but for one key. */
  lemma OneEntry<V>(a: map<Edge, V>, b: map<Edge, V>, e: Edge)
    requires a - {e} == b - {e}
    ensures e in a ==> a == b[e := a[e]]
    ensures e !in a && e !in b ==> a == b
  {
    forall f: Edge | f != e ensures (f in a <==> f in b) && (f in a ==> a[f] == b[f]) {
      assert f in a <==> f in a - {e};
      assert f in b <==> f in b - {e};
    }
  }

  /** A recorded set of ids, if there is one, without some of them. */
  function Without(m: map<Edge, set<Value>>, e: Edge, ids: set<Value>): map<Edge, set<Value>> {
    if e in m then m[e := m[e] - ids] else m
  }

  lemma WithoutMore(m: map<Edge, set<Value>>, e: Edge, ids: set<Value>, x: Value)
    ensures Without(m, e, ids + {x})
            == var less := Without(m, e, ids); if e in less then less[e := less[e] - {x}] else less
  {
    assert e in m ==> m[e] - (ids + {x}) == m[e] - ids - {x};
  }

  lemma WithoutNone(m: map<Edge, set<Value>>, e: Edge)
    ensures Without(m, e, {}) == m
  {
    if e in m {
      assert m[e] - {} == m[e];
      assert m[e := m[e]] == m;
    }
  }

  // ---------------------------------------------------------------- the mutation object

  class Mutation {
    const typ: EntityType
    var added: map<Edge, set<Value>>
    var removed: map<Edge, set<Value>>
    var refs: map<Edge, Value>
    var cleared: set<Edge>
    var sets: map<Column, int>
    var deltas: map<Column, int>
    var values: map<Column, Value>
    var nulled: set<Column>  // the cleared fields

    ghost function State(): Log
      reads this
    {
      Log(added, removed, refs, cleared, sets, deltas, values, nulled)
    }

    constructor (typ: EntityType)
      ensures this.typ == typ && State() == EMPTY
    {
      this.typ := typ;
      added, removed, refs, cleared := map[], map[], map[], {};
      sets, deltas, values, nulled := map[], map[], map[], {};
    }

    /** AddXIDs. */
    method AddIDs(e: Edge, ids: seq<Value>)
      modifies this`added
      ensures State() == Step(old(State()), AddIds(e, ids))
    {
      if e !in added {
        added := added[e := {}];
      }
      var i := 0;
      while i < |ids|
        invariant 0 <= i <= |ids|
        invariant e in added && added[e] == In(old(added), e) + Elems(ids[..i])
        invariant added - {e} == old(added) - {e}
      {
        TakeSnoc(ids, i);
        added := added[e := added[e] + {ids[i]}];
        i := i + 1;
      }
      assert ids[..i] == ids;
      OneEntry(added, old(added), e);
    }

    /** RemoveXIDs: an id leaves the added set and enters the removed one. */
    method RemoveIDs(e: Edge, ids: seq<Value>)
      modifies this`added, this`removed
      ensures State() == Step(old(State()), RemoveIds(e, ids))
    {
      if e !in removed {
        removed := removed[e := {}];
      }
      WithoutNone(added, e);
      assert Elems(ids[..0]) == {};
      var i := 0;
      while i < |ids|
        invariant 0 <= i <= |ids|
        invariant added == Without(old(added), e, Elems(ids[..i]))
        invariant e in removed && removed[e] == In(old(removed), e) + Elems(ids[..i])
        invariant removed - {e} == old(removed) - {e}
      {
        TakeSnoc(ids, i);
        WithoutMore(old(added), e, Elems(ids[..i]), ids[i]);
        if e in added {
          added := added[e := added[e] - {ids[i]}];
        }
        removed := removed[e := removed[e] + {ids[i]}];
        i := i + 1;
      }
      assert ids[..i] == ids;
      OneEntry(removed, old(removed), e);
    }

    method SetID(e: Edge, id: Value)
      modifies this`refs
      ensures State() == Step(old(State()), SetId(e, id))
    {
      refs := refs[e := id];
    }

    method Clear(e: Edge)
      modifies this`cleared
      ensures State() == Step(old(State()), ClearEdge(e))
    {
      cleared := cleared + {e};
    }

    method Reset(e: Edge)
      modifies this`added, this`removed, this`refs, this`cleared
      ensures State() == Step(old(State()), ResetEdge(e))
    {
      added, removed, refs, cleared := added - {e}, removed - {e}, refs - {e}, cleared - {e};
    }

    /** ResetXID: forgets the id that was set, but not that the edge was cleared. */
    method ResetID(e: Edge)
      modifies this`refs
      ensures State() == Step(old(State()), ResetId(e))
    {
      refs := refs - {e};
    }

    method Set(c: Column, n: int)
      modifies this`sets, this`deltas
      ensures State() == Step(old(State()), SetNumber(c, n))
    {
      sets := sets[c := n];
      deltas := deltas - {c};
    }

    method Add(c: Column, n: int)
      modifies this`deltas
      ensures State() == Step(old(State()), AddNumber(c, n))
    {
      if c in deltas {
        deltas := deltas[c := Wrap(deltas[c] + n)];
      } else {
        deltas := deltas[c := n];
      }
    }

    method ResetField(c: Column)
      modifies this`sets, this`deltas
      ensures State() == Step(old(State()), ResetNumber(c))
    {
      sets, deltas := sets - {c}, deltas - {c};
    }

    /** The setter of a text, a time or bytes. */
    method Assign(c: Column, v: Value)
      modifies this`values
      ensures State() == Step(old(State()), SetValue(c, v))
    {
      values := values[c := v];
    }

    /** ClearX of a field: forgets the value that was set. */
    method ClearAssigned(c: Column)
      modifies this`values, this`nulled
      ensures State() == Step(old(State()), ClearValue(c))
    {
      values, nulled := values - {c}, nulled + {c};
    }

    method ResetAssigned(c: Column)
      modifies this`values, this`nulled
      ensures State() == Step(old(State()), ResetValue(c))
    {
      values, nulled := values - {c}, nulled - {c};
    }

    /** One call by the user of an update builder. */
    method Do(call: Call)
      modifies this
      ensures State() == Step(old(State()), call)
    {
      hide Step, State;
      match call
      case AddIds(e, ids) => AddIDs(e, ids);
      case RemoveIds(e, ids) => RemoveIDs(e, ids);
      case SetId(e, id) => SetID(e, id);
      case ClearEdge(e) => Clear(e);
      case ResetEdge(e) => Reset(e);
      case ResetId(e) => ResetID(e);
      case SetNumber(c, n) => Set(c, n);
      case AddNumber(c, n) => Add(c, n);
      case ResetNumber(c) => ResetField(c);
      case SetValue(c, v) => Assign(c, v);
      case ClearValue(c) => ClearAssigned(c);
      case ResetValue(c) => ResetAssigned(c);
    }

    /** Any sequence of calls. */
    method Perform(calls: seq<Call>)
      modifies this
      ensures State() == Run(old(State()), calls)
    {
      hide Step, State;
      var i := 0;
      while i < |calls|
        invariant 0 <= i <= |calls|
        invariant State() == Run(old(State()), calls[..i])
      {
        assert calls[..i + 1][..i] == calls[..i];
        Do(calls[i]);
        i := i + 1;
      }
      assert calls[..i] == calls;
    }
  }
}
