/** The round trip of a creation: through the store and back to a struct. */
module RoundTrip {
  import opened Seqs
  import opened Schema
  import opened Store
  import opened Create
  import opened Migration
  import opened Codec

  /** The row a creation stores. */
  function StoredRow(spec: CreateSpec, id: Value): Row {
    SpecRow(spec)[Id := id]
  }

  /** For every accepted creation, reading the row it stored, with the columns in any order, gives
      the struct Save returned. */
  lemma ReadsBack(typ: EntityType, fields: Row, spec: CreateSpec, id: Value, columns: seq<Column>)
    requires IsCreatable(typ) && Typed(typ, fields) && HasKind(id, KindOf(typ, Id))
    requires SpecRow(spec) == Written(typ, fields)
    requires forall c :: c in Columns(typ) ==> c in columns
    ensures RowTyped(typ, StoredRow(spec, id))
    ensures Elems(columns) * Elems(Columns(typ)) == Elems(Columns(typ))
    ensures Decode(StoredRow(spec, id), Elems(Columns(typ))) == Written(typ, fields)[Id := id]
  {
    var r := StoredRow(spec, id);
    StoredTyped(typ, fields, r, id);
    assert Elems(columns) * Elems(Columns(typ)) == Elems(Columns(typ));
    DecodeAll(typ, fields, r, id);
  }

  lemma WrittenColumns(typ: EntityType)
    requires IsCreatable(typ)
    ensures forall c :: c in SpecColumns(typ) <==> c in Columns(typ) && c != Id
    ensures Id in Columns(typ)
  {
  }

  lemma StoredTyped(typ: EntityType, fields: Row, r: Row, id: Value)
    requires IsCreatable(typ) && Typed(typ, fields) && HasKind(id, KindOf(typ, Id))
    requires r == Written(typ, fields)[Id := id]
    ensures RowTyped(typ, r)
  {
    hide Columns, SpecColumns;
    WrittenColumns(typ);
  }

  lemma DecodeAll(typ: EntityType, fields: Row, r: Row, id: Value)
    requires IsCreatable(typ) && Typed(typ, fields) && HasKind(id, KindOf(typ, Id))
    requires r == Written(typ, fields)[Id := id]
    ensures Decode(r, Elems(Columns(typ))) == r
  {
    hide Columns, SpecColumns;
    WrittenColumns(typ);
    forall c | c in r ensures c in Columns(typ) && Get(r, c) != Null {
    }
  }

  datatype SaveResult = SavedEntity(node: Entity) | Rejected(c: Column) | StoreError

  /** sqlSave of a create builder, after its defaults were set: the specification goes to the store,
      and `stored` is the store's answer: the id of the new row, which is the client's if there was
      one. */
  method SqlSave(m: CreateMutation, stored: Option<Value>) returns (r: SaveResult, spec: CreateSpec)
    requires stored.Some? && m.given.Some? ==> stored.value == m.given.value
    modifies m`node, m`done
    ensures r.Rejected? <==> !Accepted(m.typ, m.fields)
    ensures r.SavedEntity? <==> Accepted(m.typ, m.fields) && stored.Some?
    ensures Accepted(m.typ, m.fields) ==>
      spec.id == m.given && SpecRow(spec) == Written(m.typ, m.fields)
    ensures Accepted(m.typ, m.fields) && IsCreatable(m.typ) ==> SpecLinks(m.typ, spec, m.links)
    ensures r.Rejected? ==> Problem(m.typ, m.fields) == Some(r.c)
    ensures r.SavedEntity? ==>
      && fresh(r.node) && r.node.fields == Written(m.typ, m.fields) && r.node.id == stored.value
      && r.node.Struct() == Written(m.typ, m.fields)[Id := stored.value]
      && m.done && m.ID() == stored && m.node == r.node
    ensures !r.SavedEntity? ==> m.node == old(m.node) && m.done == old(m.done)
  {
    spec := CreateSpec(None, [], []);
    var bad := m.Check();
    if bad.Some? {
      return Rejected(bad.value), spec;
    }
    var node, sent := m.Spec();
    spec := sent;
    if stored.None? {
      return StoreError, spec;
    }
    node.id := stored.value;
    m.node := node;
    m.done := true;
    r := SavedEntity(node);
  }

  /** Create, store, read back: the row is the one the specification put into the store, and decoding
      it gives the struct that Save returned. */
  method CreateAndRead(m: CreateMutation, now: int, stored: Option<Value>, columns: seq<Column>)
    returns (r: SaveResult, spec: CreateSpec, read: AssignResult)
    requires IsCreatable(m.typ) && Typed(m.typ, m.fields)
    requires stored.Some? ==>
      HasKind(stored.value, KindOf(m.typ, Id)) && (m.given.Some? ==> stored.value == m.given.value)
    requires forall c :: c in Columns(m.typ) ==> c in columns
    modifies m
    ensures r.Rejected? <==> !((forall c :: c in MustSet(m.typ) ==> c in old(m.fields))
                               && (m.typ == UserSystem ==> UsernameOk(old(m.fields))))
    ensures !r.Rejected? ==>
      SpecRow(spec) == Written(m.typ, WithDefaults(m.typ, old(m.fields), now)) && SpecLinks(m.typ, spec, m.links)
    ensures r.Rejected? <==> !Storable(m.typ, old(m.fields), now)
    ensures r.Rejected? ==> !Takes(m.typ, old(m.fields), now, r.c)
    ensures r.SavedEntity? <==> !r.Rejected? && stored.Some?
    ensures r.SavedEntity? ==>
      && read.Assigned?
      && read.fields == Decode(StoredRow(spec, stored.value), Elems(Columns(m.typ))) == r.node.Struct()
      && read.fields == r.node.fields[Id := stored.value] && Completed(m.typ, old(m.fields), now, r.node.fields)
    ensures r.SavedEntity? ==> m.done && m.node == r.node && m.ID() == stored
    ensures !r.SavedEntity? ==> m.node == old(m.node) && m.done == old(m.done)
    ensures m.fields == WithDefaults(m.typ, old(m.fields), now)
  {
    hide Typed, Accepted, MustSet, Columns, UsernameOk, SpecRow, SpecLinks, Storable, Takes, Completed, Written;
    hide Problem, WithDefaults, Decode, StoredRow, KindOf, HasKind;
    AcceptedExactly(m.typ, m.fields, now);
    AcceptedStorable(m.typ, m.fields, now);
    DefaultsTyped(m.typ, m.fields, now);
    m.Defaults(now);
    r, spec := SqlSave(m, stored);
    read := Mismatch;
    if r.SavedEntity? {
      ReadsBack(m.typ, m.fields, spec, stored.value, columns);
      var row := StoredRow(spec, stored.value);
      var values := seq(|columns|, i requires 0 <= i < |columns| => Get(row, columns[i]));
      read := ReadRow(m.typ, columns, values, row);
    }
  }

  lemma DefaultsTyped(typ: EntityType, fields: Row, now: int)
    requires IsCreatable(typ) && Typed(typ, fields)
    ensures Typed(typ, WithDefaults(typ, fields, now))
  {
    hide Columns, DefaultColumns, KindOf, DefaultOf;
    forall c | c in DefaultColumns(typ) ensures c in Columns(typ) && HasKind(DefaultOf(c, now), KindOf(typ, c)) {
      DefaultTyped(typ, c, now);
    }
  }

  lemma DefaultTyped(typ: EntityType, c: Column, now: int)
    requires IsCreatable(typ) && c in DefaultColumns(typ)
    ensures c in Columns(typ) && HasKind(DefaultOf(c, now), KindOf(typ, c))
  {
  }
}
