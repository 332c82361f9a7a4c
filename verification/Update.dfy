/** An update from beginning to end: the calls of its user, the defaults, sqlSave, and the store, which
    executes the specification or refuses it as a whole. */
module Update {
  import opened Seqs
  import opened Schema
  import opened Store
  import opened EdgeSpecs
  import opened Migration
  import opened Mutation
  import opened UpdateSpec

  // ---------------------------------------------------------------- the store

  /** The specification breaks a NOT NULL constraint: it leaves a to-one edge without a link, takes a
      row off a one-to-many edge, or inserts into a join table that needs more than its keys. */
  predicate Breaks(spec: Spec, e: Edge, s: set<Value>) {
    match e.Rel()
    case M2O(_) => LinksAfter(spec, e, s) == {}
    case O2M(_) => ApplyClears(spec.clear, e, s) != s
    case M2M(table, _, _) => NeedsMore(table) && ApplyAdds(spec.add, e, {}) != {}
  }

  /** One stored row, with its links. The store may refuse an update for other reasons as well, and it
      is up to the library in which order it assigns and clears. */
  class Stored {
    const typ: EntityType
    const refuses: bool
    const nullLast: bool
    var links: map<Edge, set<Value>>
    var numbers: map<Column, int>
    var values: map<Column, Value>

    constructor (typ: EntityType, refuses: bool, nullLast: bool,
                 links: map<Edge, set<Value>>, numbers: map<Column, int>, values: map<Column, Value>)
      ensures this.typ == typ && this.refuses == refuses && this.nullLast == nullLast
      ensures this.links == links && this.numbers == numbers && this.values == values
    {
      this.typ, this.refuses, this.nullLast := typ, refuses, nullLast;
      this.links, this.numbers, this.values := links, numbers, values;
    }

    /** The foreign keys of the row are not NULL. */
    ghost predicate Valid()
      reads this
    {
      forall e :: e in EdgesOf(typ) && e.Rel().M2O? ==> Links(e) != {}
    }

    function Links(e: Edge): set<Value>
      reads this
    {
      In(links, e)
    }

    function Number(c: Column): int
      reads this
    {
      if c in numbers then numbers[c] else 0
    }

    function Value(c: Column): Value
      reads this
    {
      if c in values then values[c] else Null
    }

    /** UpdateNode: all of the specification, or nothing. */
    method Execute(spec: Spec) returns (ok: bool)
      requires Valid()
      modifies this
      ensures Valid()
      ensures ok <==> !refuses && forall e :: e in EdgesOf(typ) ==> !Breaks(spec, e, old(Links(e)))
      ensures ok ==> forall e :: e in EdgesOf(typ) ==> Links(e) == LinksAfter(spec, e, old(Links(e)))
      ensures ok ==> forall c :: c in NumericColumns(typ) ==> Number(c) == NumberAfter(spec, c, old(Number(c)))
      ensures ok ==> forall c :: c in PlainColumns(typ) ==> Value(c) == ValueAfter(spec, nullLast, c, old(Value(c)))
      ensures !ok ==> unchanged(this)
    {
      hide LinksAfter, NumberAfter, ValueAfter, ApplyClears, ApplyAdds, EdgesOf, NumericColumns, PlainColumns;
      if refuses || exists e :: e in EdgesOf(typ) && Breaks(spec, e, Links(e)) {
        return false;
      }
      links := map e | e in EdgesOf(typ) :: LinksAfter(spec, e, Links(e));
      numbers := map c | c in NumericColumns(typ) :: NumberAfter(spec, c, Number(c));
      values := map c | c in PlainColumns(typ) :: ValueAfter(spec, nullLast, c, Value(c));
      ok := true;
    }
  }

  // ---------------------------------------------------------------- the builder

  /** defaults: an update time that was not set becomes the time of the update. */
  method Defaults(m: Mutation, now: int)
    modifies m`values
    ensures m.State() == Defaulted(m.typ, old(m.State()), now)
  {
    if UpdateTime in PlainColumns(m.typ) && UpdateTime !in m.values {
      m.Assign(UpdateTime, TimeV(now));
    }
  }

  function Defaulted(typ: EntityType, l: Log, now: int): Log {
    if UpdateTime in PlainColumns(typ) && UpdateTime !in l.values then l.(values := l.values[UpdateTime := TimeV(now)])
    else l
  }

  /** The check passes: every value the calls leave fits its column, and no to-one edge was both cleared
      and set since its last reset. */
  ghost predicate Passing(typ: EntityType, calls: seq<Call>) {
    && (forall c ::
          Updatable(typ, c) && Latest(calls, c).Some? ==> FitsColumn(Declared(typ, c).value, Latest(calls, c).value))
    && forall e :: e in EdgesOf(typ) && e.Rel().M2O? ==> !Clears(Since(calls, e)) || !Sets(Since(calls, e))
  }

  /** What the calls leave of a stored value. */
  function ReplayedValue(calls: seq<Call>, now: int, nullLast: bool, c: Column, x: Value): Value {
    if Latest(calls, c).None? then if c == UpdateTime then TimeV(now) else x
    else if nullLast && Nulled(calls, c) then Null
    else Latest(calls, c).value
  }

  datatype SaveResult = Saved | NotSaved(why: Refusal) | StoreRefused

  /** The saved number is the replayed one modulo 2^64, and equal to it exactly if the increments since
      the last assignment do not overflow. */
  ghost predicate SavedNumber(saved: int, seg: seq<Call>, before: int) {
    && Wrap(saved) == Wrap(ReplayNumber(seg, before))
    && (saved == ReplayNumber(seg, before) <==> InRange(Pending(seg)))
  }

  /** What the specification does to one edge is what the calls say. */
  ghost predicate SpecEdge(spec: Spec, calls: seq<Call>, e: Edge, s: set<Value>) {
    && (Breaks(spec, e, s) <==> Blocked(calls, e, s))
    && LinksAfter(spec, e, s) == Replayed(calls, e, s)
    && (e.Rel().O2M? && !Blocked(calls, e, s) ==> s <= Replayed(calls, e, s))
  }

  lemma LessOrSame(a: set<Value>, b: set<Value>)
    ensures a - b == a <==> a * b == {}
  {
    if a * b == {} {
      assert forall x :: x in a ==> x !in a * b;
      assert a - b == a;
    } else {
      var x :| x in a * b;
      assert x in a && x !in a - b;
    }
  }

  lemma BreaksExactly(spec: Spec, l: Log, e: Edge, s: set<Value>)
    requires !Refused(l, e) && (e.Rel().M2O? ==> s != {})
    requires forall t :: ApplyClears(spec.clear, e, t) == ClearOutcome(l, e, t)
    requires forall t :: ApplyAdds(spec.add, e, t) == AddOutcome(l, e, t)
    ensures Breaks(spec, e, s) <==> Violates(l, e, s)
    ensures LinksAfter(spec, e, s) == Outcome(l, e, s)
  {
    hide ApplyClears, ApplyAdds;
    if e.Rel().O2M? && e !in l.cleared {
      LessOrSame(s, In(l.removed, e));
    }
  }

  /** Defaults touch neither edges nor numbers. */
  lemma DefaultedEdge(typ: EntityType, l: Log, now: int)
    ensures var m := Defaulted(typ, l, now);
            && m.added == l.added && m.removed == l.removed && m.refs == l.refs && m.cleared == l.cleared
            && m.sets == l.sets && m.deltas == l.deltas && m.nulled == l.nulled
  {
  }

  lemma RefusedReplayed(calls: seq<Call>, e: Edge)
    ensures Refused(Run(EMPTY, calls), e) <==> e.Rel().M2O? && Clears(Since(calls, e)) && Sets(Since(calls, e))
  {
    if e.Rel().M2O? {
      SaveReplaysRef(calls, e, {});
    }
  }

  lemma EdgeSaved(typ: EntityType, calls: seq<Call>, now: int, spec: Spec, e: Edge, s: set<Value>)
    requires e in EdgesOf(typ) && Passing(typ, calls) && (e.Rel().M2O? ==> s != {})
    requires forall t :: ApplyClears(spec.clear, e, t) == ClearOutcome(Defaulted(typ, Run(EMPTY, calls), now), e, t)
    requires forall t :: ApplyAdds(spec.add, e, t) == AddOutcome(Defaulted(typ, Run(EMPTY, calls), now), e, t)
    ensures SpecEdge(spec, calls, e, s)
  {
    hide Run, Replayed, Blocked, Defaulted, ApplyClears, ApplyAdds, Since, Clears, Sets;
    var l := Run(EMPTY, calls);
    DefaultedEdge(typ, l, now);
    RefusedReplayed(calls, e);
    BreaksExactly(spec, l, e, s);
    OutcomeReplayed(calls, e, s);
    StoppedByStore(calls, e, s);
    if !Blocked(calls, e, s) {
      RequiredLinksStay(calls, e, s);
    }
  }

  lemma NumberSaved(typ: EntityType, calls: seq<Call>, now: int, c: Column, x: int)
    requires forall i :: 0 <= i < |calls| ==> Allowed(calls[i])
    ensures SavedNumber(NumberOutcome(Defaulted(typ, Run(EMPTY, calls), now), c, x), NumberCalls(calls, c), x)
  {
    hide Wrap, InRange, Run, Pending, NumberCalls, ReplayNumber, Allowed, Defaulted;
    DefaultedEdge(typ, Run(EMPTY, calls), now);
    SaveReplaysNumber(calls, c, x);
  }

  lemma ValueSaved(typ: EntityType, calls: seq<Call>, now: int, nullLast: bool, c: Column, x: Value)
    requires c in PlainColumns(typ) && forall i :: 0 <= i < |calls| ==> Allowed(calls[i])
    ensures ValueOutcome(Defaulted(typ, Run(EMPTY, calls), now), nullLast, c, x)
            == ReplayedValue(calls, now, nullLast, c, x)
  {
    hide Run, Latest, Nulled, Allowed, PlainColumns;
    ValueReplays(calls, c);
    NulledLatest(calls, c);
    TimeStays(calls);
  }

  /** The update time cannot be cleared. */
  lemma {:induction false} TimeStays(calls: seq<Call>)
    requires forall i :: 0 <= i < |calls| ==> Allowed(calls[i])
    ensures !Nulled(calls, UpdateTime) && Latest(calls, UpdateTime) != Some(Null)
  {
    if calls == [] {
    } else {
      TimeStays(calls[..|calls| - 1]);
      assert Allowed(calls[|calls| - 1]);
    }
  }

  lemma InvalidReplayed(typ: EntityType, calls: seq<Call>, now: int, c: Column)
    requires c in PlainColumns(typ) && Declared(typ, c).Some? && forall i :: 0 <= i < |calls| ==> Allowed(calls[i])
    ensures Invalid(typ, Defaulted(typ, Run(EMPTY, calls), now), c)
            <==> Latest(calls, c).Some? && !FitsColumn(Declared(typ, c).value, Latest(calls, c).value)
  {
    hide ValidValue, FitsColumn, PlainColumns, Latest, Run, Allowed, Declared;
    ValueReplays(calls, c);
    AlwaysFits(Declared(typ, c).value, now);
    ValidMatch(typ, c, TimeV(now));
    if Latest(calls, c).Some? {
      ValidMatch(typ, c, Latest(calls, c).value);
    }
  }

  lemma AlwaysFits(sc: SqlColumn, now: int)
    ensures FitsColumn(sc, TimeV(now)) && FitsColumn(sc, Null)
  {
  }

  /** No validator looks at a number. */
  lemma NumberFits(typ: EntityType, c: Column, v: Value)
    requires c in NumericColumns(typ) && Declared(typ, c).Some?
    ensures FitsColumn(Declared(typ, c).value, v)
  {
  }

  lemma UpdatableDeclared(typ: EntityType, c: Column)
    ensures Updatable(typ, c) ==> Declared(typ, c).Some?
  {
  }

  lemma PassingExactly(typ: EntityType, calls: seq<Call>, now: int)
    requires forall i :: 0 <= i < |calls| ==> Allowed(calls[i])
    ensures Passing(typ, calls) <==>
      && (forall c :: c in PlainColumns(typ) ==> !Invalid(typ, Defaulted(typ, Run(EMPTY, calls), now), c))
      && forall e :: e in EdgesOf(typ) ==> !Refused(Defaulted(typ, Run(EMPTY, calls), now), e)
  {
    hide Invalid, Defaulted, Run, PlainColumns, NumericColumns, EdgesOf, Clears, Sets, Since, Latest, Allowed;
    hide FitsColumn, Updatable, Declared, SqlKind;
    DefaultedEdge(typ, Run(EMPTY, calls), now);
    forall c
      ensures Updatable(typ, c) ==> Declared(typ, c).Some?
      ensures (Updatable(typ, c) && Latest(calls, c).Some? ==>
                 FitsColumn(Declared(typ, c).value, Latest(calls, c).value))
              <==> (c in PlainColumns(typ) ==> !Invalid(typ, Defaulted(typ, Run(EMPTY, calls), now), c))
    {
      UpdatableMatch(typ, c);
      UpdatableDeclared(typ, c);
      if c in PlainColumns(typ) {
        InvalidReplayed(typ, calls, now, c);
      } else if Updatable(typ, c) && Latest(calls, c).Some? {
        NumberFits(typ, c, Latest(calls, c).value);
      }
    }
    forall e | e in EdgesOf(typ)
      ensures Refused(Run(EMPTY, calls), e) <==> e.Rel().M2O? && Clears(Since(calls, e)) && Sets(Since(calls, e))
    {
      RefusedReplayed(calls, e);
    }
  }

  /** An update builder from beginning to end: any calls on a new mutation, defaults, sqlSave. It is
      stopped by the check, or by the store, and then changes nothing; or it leaves what the calls
      say, and every link a table requires stays. */
  method Save(calls: seq<Call>, now: int, row: Stored) returns (r: SaveResult)
    requires row.Valid() && forall i :: 0 <= i < |calls| ==> Allowed(calls[i])
    modifies row
    ensures row.Valid()
    ensures r.NotSaved? <==> !Passing(row.typ, calls)
    ensures r.NotSaved? ==>
      match r.why
      case InvalidValue(c) =>
        && Updatable(row.typ, c) && Latest(calls, c).Some?
        && !FitsColumn(Declared(row.typ, c).value, Latest(calls, c).value)
      case ClearingRequired(e) =>
        e in EdgesOf(row.typ) && e.Rel().M2O? && Clears(Since(calls, e)) && Sets(Since(calls, e))
    ensures r.StoreRefused? <==>
      && Passing(row.typ, calls)
      && (row.refuses || exists e :: e in EdgesOf(row.typ) && Blocked(calls, e, old(row.Links(e))))
    ensures !r.Saved? ==> unchanged(row)
    ensures r.Saved? ==> forall e :: e in EdgesOf(row.typ) ==>
      row.Links(e) == Replayed(calls, e, old(row.Links(e))) && (e.Rel().O2M? ==> old(row.Links(e)) <= row.Links(e))
    ensures r.Saved? ==> forall c :: Updatable(row.typ, c) ==>
      if SqlKind(Declared(row.typ, c).value.typ) == KInt
      then SavedNumber(row.Number(c), NumberCalls(calls, c), old(row.Number(c)))
      else row.Value(c) == ReplayedValue(calls, now, row.nullLast, c, old(row.Value(c)))
  {
    hide Outcome, NumberOutcome, Replayed, LinksAfter, NumberAfter, SavedNumber, Violates, Blocked, Breaks;
    hide ValueAfter, ValueOutcome, Invalid, Defaulted, ReplayedValue, Run, Passing, EdgesOf, ClearOutcome, AddOutcome;
    hide ApplyClears, ApplyAdds, NumericColumns, PlainColumns, Allowed, Updatable, Declared, SqlKind, FitsColumn;
    var m := new Mutation(row.typ);
    m.Perform(calls);
    Defaults(m, now);
    var compiled := Compile(m);
    PassingExactly(row.typ, calls, now);
    if compiled.NotCompiled? {
      match compiled.why {
        case InvalidValue(c) =>
          UpdatableMatch(row.typ, c);
          UpdatableDeclared(row.typ, c);
          InvalidReplayed(row.typ, calls, now, c);
        case ClearingRequired(e) =>
          RefusedReplayed(calls, e);
          DefaultedEdge(row.typ, Run(EMPTY, calls), now);
      }
      return NotSaved(compiled.why);
    }
    forall e | e in EdgesOf(row.typ) ensures SpecEdge(compiled.spec, calls, e, row.Links(e)) {
      EdgeSaved(row.typ, calls, now, compiled.spec, e, row.Links(e));
    }
    var ok := row.Execute(compiled.spec);
    if !ok {
      return StoreRefused;
    }
    forall c | c in NumericColumns(row.typ)
      ensures SavedNumber(row.Number(c), NumberCalls(calls, c), old(row.Number(c)))
    {
      NumberSaved(row.typ, calls, now, c, old(row.Number(c)));
    }
    forall c | c in PlainColumns(row.typ)
      ensures row.Value(c) == ReplayedValue(calls, now, row.nullLast, c, old(row.Value(c)))
    {
      ValueSaved(row.typ, calls, now, row.nullLast, c, old(row.Value(c)));
    }
    forall c | Updatable(row.typ, c)
      ensures Declared(row.typ, c).Some?
      ensures if SqlKind(Declared(row.typ, c).value.typ) == KInt then c in NumericColumns(row.typ)
              else c in PlainColumns(row.typ)
    {
      UpdatableMatch(row.typ, c);
      UpdatableDeclared(row.typ, c);
    }
    r := Saved;
  }
}
