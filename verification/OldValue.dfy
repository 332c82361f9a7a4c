/** The old values of an update-by-id mutation: read from the store at most once, and never after
    the update was saved. */
module OldValue {
  import opened Schema
  import opened Store
  import opened Migration

  datatype Op = OpCreate | OpUpdate | OpUpdateOne | OpDelete | OpDeleteOne

  datatype OldError =
    | UnknownField(c: Column)  // not a field of the entity
    | NotUpdateOne             // only allowed on UpdateOne operations
    | NoId                     // requires an ID field in the mutation
    | AfterSave                // querying old values post mutation is not allowed
    | StoreFailed              // the query failed

  datatype Answer<+T> = Ok(value: T) | Failed(error: OldError)

  /** Where old values come from: the builder was given an id, an entity, or neither. */
  datatype Source = ById(id: Value) | Given(node: Row) | NoSource

  /** What can happen to the mutation: someone asks for an old value, at a moment when the store
      would answer `now`; or a save succeeds, or fails. */
  datatype Event = Ask(c: Column, now: Answer<Row>) | Saved | SaveFailed

  predicate IsField(typ: EntityType, c: Column) {
    c in Columns(typ) && c != Id
  }

  /** Every column of the table has an old value, but the id. */
  lemma FieldsDeclared(typ: EntityType, c: Column)
    ensures IsField(typ, c) <==> Declared(typ, c).Some? && c != Id
  {
    ColumnsMatch(typ, c);
  }

  // ---------------------------------------------------------------- what the answers should be

  /** The request reaches the snapshot: the field exists, the operation allows it, there is an id. */
  predicate Reaches(typ: EntityType, op: Op, source: Source, event: Event) {
    event.Ask? && IsField(typ, event.c) && op.OpUpdateOne? && !source.NoSource?
  }

  predicate Asked(typ: EntityType, op: Op, source: Source, events: seq<Event>) {
    exists i :: 0 <= i < |events| && Reaches(typ, op, source, events[i])
  }

  predicate WasSaved(events: seq<Event>) {
    exists i :: 0 <= i < |events| && events[i].Saved?
  }

  /** What the store said when the first request reached it, or the error if that was too late. */
  function Snapshot(typ: EntityType, op: Op, source: Source, events: seq<Event>): Answer<Row>
    requires Asked(typ, op, source, events)
  {
    LastReaches(typ, op, source, events);
    var front, last := events[..|events| - 1], events[|events| - 1];
    if Asked(typ, op, source, front) then Snapshot(typ, op, source, front)
    else if WasSaved(front) then Failed(AfterSave)
    else last.now
  }

  lemma LastReaches(typ: EntityType, op: Op, source: Source, events: seq<Event>)
    requires Asked(typ, op, source, events)
    ensures events != []
    ensures Asked(typ, op, source, events[..|events| - 1]) || Reaches(typ, op, source, events[|events| - 1])
  {
    hide Reaches;
    var front, last := events[..|events| - 1], events[|events| - 1];
    assert events == front + [last];
    SnocEvents(typ, op, source, front, last);
  }

  /** The answer to the last of some events. */
  function Expected(typ: EntityType, op: Op, source: Source, events: seq<Event>): Answer<Value>
    requires events != [] && events[|events| - 1].Ask?
  {
    var c := events[|events| - 1].c;
    if !IsField(typ, c) then Failed(UnknownField(c))
    else if !op.OpUpdateOne? then Failed(NotUpdateOne)
    else if source.NoSource? then Failed(NoId)
    else if source.Given? then Ok(Get(source.node, c))
    else
      assert Reaches(typ, op, source, events[|events| - 1]);
      match Snapshot(typ, op, source, events)
      case Ok(row) => Ok(Get(row, c))
      case Failed(error) => Failed(error)
  }

  // ---------------------------------------------------------------- the mutation

  class UpdateMutation {
    const typ: EntityType
    const op: Op
    const source: Source
    var done: bool
    var fired: bool  // the sync.Once of the closure
    var value: Answer<Row>
    ghost var queries: nat  // how often the store was read

    constructor (typ: EntityType, op: Op, source: Source)
      ensures this.typ == typ && this.op == op && this.source == source && Tracks([])
    {
      this.typ, this.op, this.source := typ, op, source;
      done, fired, value, queries := false, false, Failed(StoreFailed), 0;
    }

    /** The mutation after `events`. */
    ghost predicate Tracks(events: seq<Event>)
      reads this
    {
      && (done <==> WasSaved(events))
      && (fired <==> source.ById? && Asked(typ, op, source, events))
      && (fired ==> value == Snapshot(typ, op, source, events))
      && queries == (if fired && !value.Failed? then 1 else if fired && value.error != AfterSave then 1 else 0)
    }

    /** The oldValue closure. */
    method OldValue(now: Answer<Row>) returns (r: Answer<Row>)
      requires !source.NoSource?
      modifies this`fired, this`value, this`queries
      ensures source.Given? ==>
        r == Ok(source.node) && fired == old(fired) && value == old(value) && queries == old(queries)
      ensures source.ById? ==> fired && r == value
      ensures source.ById? && old(fired) ==> value == old(value) && queries == old(queries)
      ensures source.ById? && !old(fired) ==>
        if done then value == Failed(AfterSave) && queries == old(queries)
        else value == now && queries == old(queries) + 1
    {
      if source.Given? {
        return Ok(source.node);
      }
      if !fired {
        fired := true;
        if done {
          value := Failed(AfterSave);
        } else {
          value := now;
          queries := queries + 1;
        }
      }
      return value;
    }

    /** OldField(name), which dispatches to OldX. */
    method OldField(c: Column, now: Answer<Row>, ghost events: seq<Event>) returns (r: Answer<Value>)
      requires Tracks(events) && (now.Failed? ==> now.error == StoreFailed)
      modifies this`fired, this`value, this`queries
      ensures Tracks(events + [Ask(c, now)])
      ensures r == Expected(typ, op, source, events + [Ask(c, now)])
    {
      OneMore(typ, op, source, events, Ask(c, now));
      if !IsField(typ, c) {
        return Failed(UnknownField(c));
      }
      if op != OpUpdateOne {
        return Failed(NotUpdateOne);
      }
      if source.NoSource? {
        return Failed(NoId);
      }
      var was := OldValue(now);
      match was
      case Ok(row) => r := Ok(Get(row, c));
      case Failed(error) => r := Failed(error);
    }

    /** One event. */
    method Handle(event: Event, ghost events: seq<Event>) returns (r: Option<Answer<Value>>)
      requires Tracks(events) && (event.Ask? && event.now.Failed? ==> event.now.error == StoreFailed)
      modifies this
      ensures Tracks(events + [event])
      ensures event.Ask? ==> r == Some(Expected(typ, op, source, events + [event]))
    {
      r := None;
      OneMore(typ, op, source, events, event);
      if event.Ask? {
        var answer := OldField(event.c, event.now, events);
        return Some(answer);
      }
      if event.Saved? {
        done := true;
      }
    }

    /** Every run of requests and saves. */
    method Perform(events: seq<Event>) returns (answers: seq<Option<Answer<Value>>>)
      requires Tracks([])
      requires forall i :: 0 <= i < |events| && events[i].Ask? && events[i].now.Failed? ==>
        events[i].now.error == StoreFailed
      modifies this
      ensures |answers| == |events|
      ensures forall i :: 0 <= i < |events| && events[i].Ask? ==>
        answers[i] == Some(Expected(typ, op, source, events[..i + 1]))
      ensures Tracks(events) && queries <= 1
    {
      hide Expected, Reaches, Asked, WasSaved, Snapshot;
      answers := [];
      for i := 0 to |events|
        invariant |answers| == i && Tracks(events[..i])
        invariant forall k :: 0 <= k < i && events[k].Ask? ==>
          answers[k] == Some(Expected(typ, op, source, events[..k + 1]))
      {
        assert events[..i + 1] == events[..i] + [events[i]];
        var r := Handle(events[i], events[..i]);
        answers := answers + [r];
      }
      assert events[..|events|] == events;
    }
  }

  lemma SnocEvents(typ: EntityType, op: Op, source: Source, events: seq<Event>, last: Event)
    ensures WasSaved(events + [last]) <==> WasSaved(events) || last.Saved?
    ensures Asked(typ, op, source, events + [last])
            <==> Asked(typ, op, source, events) || Reaches(typ, op, source, last)
  {
    hide Reaches;
    var all := events + [last];
    assert all[|events|] == last;
    assert forall i :: 0 <= i < |events| ==> all[i] == events[i];
  }

  lemma OneMore(typ: EntityType, op: Op, source: Source, events: seq<Event>, last: Event)
    ensures WasSaved(events + [last]) <==> WasSaved(events) || last.Saved?
    ensures Asked(typ, op, source, events + [last])
            <==> Asked(typ, op, source, events) || Reaches(typ, op, source, last)
    ensures Asked(typ, op, source, events + [last]) ==>
      Snapshot(typ, op, source, events + [last]) ==
        if Asked(typ, op, source, events) then Snapshot(typ, op, source, events)
        else if WasSaved(events) then Failed(AfterSave) else last.now
  {
    hide Asked, WasSaved;
    SnocEvents(typ, op, source, events, last);
    var all := events + [last];
    assert all[|events|] == last && all[..|all| - 1] == events;
  }

  /** Once a request has reached the snapshot, later events do not change it. */
  lemma {:induction false} SnapshotFixed(typ: EntityType, op: Op, source: Source, events: seq<Event>, i: nat)
    requires i <= |events| && Asked(typ, op, source, events[..i])
    ensures Asked(typ, op, source, events)
    ensures Snapshot(typ, op, source, events) == Snapshot(typ, op, source, events[..i])
    decreases |events|
  {
    if i == |events| {
      assert events[..i] == events;
    } else {
      var front, last := events[..|events| - 1], events[|events| - 1];
      assert front[..i] == events[..i] && events == front + [last];
      SnapshotFixed(typ, op, source, front, i);
      OneMore(typ, op, source, front, last);
    }
  }

  /** All successful answers of a run, to any fields, are read off one row: what the store held when
      the first request came, which was before any save. */
  lemma OneSnapshot(typ: EntityType, op: Op, id: Value, events: seq<Event>)
    requires Asked(typ, op, ById(id), events)
    ensures forall i :: 0 <= i < |events| && events[i].Ask? && Expected(typ, op, ById(id), events[..i + 1]).Ok? ==>
      && Snapshot(typ, op, ById(id), events).Ok?
      && Expected(typ, op, ById(id), events[..i + 1]).value
         == Get(Snapshot(typ, op, ById(id), events).value, events[i].c)
  {
    forall i | 0 <= i < |events| && events[i].Ask? && Expected(typ, op, ById(id), events[..i + 1]).Ok?
      ensures Snapshot(typ, op, ById(id), events).Ok?
      ensures Expected(typ, op, ById(id), events[..i + 1]).value
              == Get(Snapshot(typ, op, ById(id), events).value, events[i].c)
    {
      assert Reaches(typ, op, ById(id), events[..i + 1][i]);
      SnapshotFixed(typ, op, ById(id), events, i + 1);
    }
  }

  /** If the update was saved before anyone asked, every answer is an error. */
  lemma TooLate(typ: EntityType, op: Op, id: Value, events: seq<Event>, i: nat, j: nat)
    requires i <= j < |events| && events[j].Ask?
    requires WasSaved(events[..i]) && !Asked(typ, op, ById(id), events[..i])
    ensures Expected(typ, op, ById(id), events[..j + 1]).Failed?
    ensures Reaches(typ, op, ById(id), events[j]) ==> Expected(typ, op, ById(id), events[..j + 1]) == Failed(AfterSave)
  {
    if Reaches(typ, op, ById(id), events[j]) {
      assert events[..j + 1][..i] == events[..i] && Reaches(typ, op, ById(id), events[..j + 1][j]);
      LateSnapshot(typ, op, id, events[..j + 1], i);
    }
  }

  lemma {:induction false} LateSnapshot(typ: EntityType, op: Op, id: Value, events: seq<Event>, i: nat)
    requires i <= |events| && WasSaved(events[..i]) && !Asked(typ, op, ById(id), events[..i])
    ensures WasSaved(events)
    ensures Asked(typ, op, ById(id), events) ==> Snapshot(typ, op, ById(id), events) == Failed(AfterSave)
    decreases |events|
  {
    if i == |events| {
      assert events[..i] == events;
    } else {
      var front, last := events[..|events| - 1], events[|events| - 1];
      assert front[..i] == events[..i] && events == front + [last];
      LateSnapshot(typ, op, id, front, i);
      OneMore(typ, op, ById(id), front, last);
    }
  }

  /** A mutation that was given its entity answers from it, at any time, even after a save. */
  lemma FromTheNode(typ: EntityType, op: Op, node: Row, events: seq<Event>, i: nat)
    requires i < |events| && events[i].Ask? && op.OpUpdateOne?
    requires Declared(typ, events[i].c).Some? && events[i].c != Id
    ensures Expected(typ, op, Given(node), events[..i + 1]) == Ok(Get(node, events[i].c))
  {
    FieldsDeclared(typ, events[i].c);
  }

  /** The other answers: no such field, not the update of one entity, or no entity to ask about. */
  lemma NoAnswer(typ: EntityType, op: Op, source: Source, events: seq<Event>, i: nat)
    requires i < |events| && events[i].Ask?
    ensures var answer, c := Expected(typ, op, source, events[..i + 1]), events[i].c;
            && (Declared(typ, c).None? || c == Id ==> answer == Failed(UnknownField(c)))
            && (Declared(typ, c).Some? && c != Id && op != OpUpdateOne ==> answer == Failed(NotUpdateOne))
            && (Declared(typ, c).Some? && c != Id && op == OpUpdateOne && source.NoSource? ==> answer == Failed(NoId))
  {
    FieldsDeclared(typ, events[i].c);
  }
}
