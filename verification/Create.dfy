/** Creating entities: defaults, check and createSpec of the create builders, for user systems (ids
    from the database) and inodes (ids from the client). */
module Create {
  import opened Seqs
  import opened Schema
  import opened Store
  import opened EdgeSpecs
  import opened Migration

  /** Every field a mutation holds was set by a typed setter of the entity. */
  ghost predicate Typed(typ: EntityType, fields: Row) {
    forall c :: c in fields ==> c in Columns(typ) && HasKind(fields[c], KindOf(typ, c))
  }

  predicate IsCreatable(typ: EntityType) {
    typ == UserSystem || typ == Inode
  }

  /** The columns createSpec writes, in its order. */
  function SpecColumns(typ: EntityType): seq<Column> {
    if typ == UserSystem then [Uid, Gid, Username, UserId, SystemId]
    else [CreateTime, UpdateTime, Mode, Uid, Gid, Size, LinkCount, Flags, Atime, Mtime, Ctime, Content, SystemId]
  }

  /** The columns check requires, in its order. */
  function RequiredColumns(typ: EntityType): seq<Column> {
    if typ == UserSystem then [UserId, SystemId, Uid, Gid, Username]
    else [CreateTime, UpdateTime, SystemId, Mode, Uid, Gid, Size, LinkCount, Flags, Atime, Mtime, Ctime]
  }

  function DefaultColumns(typ: EntityType): seq<Column> {
    if typ == UserSystem then [Uid, Gid] else [CreateTime, UpdateTime, Uid, Gid, Size, LinkCount]
  }

  function DefaultOf(c: Column, now: int): Value {
    match c
    case CreateTime => TimeV(now)
    case UpdateTime => TimeV(now)
    case LinkCount => IntV(1)
    case _ => IntV(0)
  }

  const MAX_USERNAME: nat := 32

  /** UsernameValidator: at most 32 bytes. */
  predicate UsernameOk(fields: Row) {
    Username in fields && fields[Username].StrV? ==> |fields[Username].s| <= MAX_USERNAME
  }

  ghost predicate Accepted(typ: EntityType, fields: Row) {
    (forall c :: c in RequiredColumns(typ) ==> c in fields) && (typ == UserSystem ==> UsernameOk(fields))
  }

  /** The first of some columns that is not set. */
  function FirstMissing(fields: Row, columns: seq<Column>): Option<Column> {
    if columns == [] then None
    else if columns[0] !in fields then Some(columns[0])
    else FirstMissing(fields, columns[1..])
  }

  /** What check reports. */
  function Problem(typ: EntityType, fields: Row): Option<Column> {
    if FirstMissing(fields, RequiredColumns(typ)).Some? then FirstMissing(fields, RequiredColumns(typ))
    else if typ == UserSystem && !UsernameOk(fields) then Some(Username)
    else None
  }

  lemma {:induction false} FirstMissingNone(fields: Row, columns: seq<Column>)
    ensures FirstMissing(fields, columns).None? <==> forall c :: c in columns ==> c in fields
    ensures FirstMissing(fields, columns).Some? ==>
      FirstMissing(fields, columns).value in columns && FirstMissing(fields, columns).value !in fields
  {
    if columns == [] {
    } else {
      FirstMissingNone(fields, columns[1..]);
      assert columns == [columns[0]] + columns[1..];
    }
  }

  /** Fields already set win over defaults. */
  ghost function WithDefaults(typ: EntityType, fields: Row, now: int): Row {
    (map c | c in DefaultColumns(typ) :: DefaultOf(c, now)) + fields
  }

  // ---------------------------------------------------------------- the tables

  /** The fields of both entities are those of their tables: createSpec writes every column but the id,
      and check requires those that may not be NULL. */
  lemma FieldsMatch(typ: EntityType, c: Column)
    requires typ == UserSystem || typ == Inode
    ensures IsCreatable(typ)
    ensures c in SpecColumns(typ) <==> c != Id && Declared(typ, c).Some?
    ensures c in RequiredColumns(typ) <==> c != Id && Declared(typ, c).Some? && !Declared(typ, c).value.nullable
  {
    hide SpecColumns, RequiredColumns, Columns, Declared;
    WrittenListed(typ, c);
    RequiredListed(typ, c);
    ColumnsDeclared(typ, c);
    if Declared(typ, c).Some? {
      OnlyContent(typ, c);
    }
  }

  lemma WrittenListed(typ: EntityType, c: Column)
    requires typ == UserSystem || typ == Inode
    ensures c in SpecColumns(typ) <==> c != Id && c in Columns(typ)
  {
    hide Declared;
  }

  lemma RequiredListed(typ: EntityType, c: Column)
    requires typ == UserSystem || typ == Inode
    ensures c in RequiredColumns(typ) <==> c != Id && c in Columns(typ) && c != Content
  {
    hide Declared;
  }

  lemma OnlyContent(typ: EntityType, c: Column)
    requires (typ == UserSystem || typ == Inode) && Declared(typ, c).Some?
    ensures Declared(typ, c).value.nullable <==> c == Content
  {
  }

  /** The id of a struct that has none yet is zero. */
  lemma ZeroMatches(typ: EntityType)
    requires IsCreatable(typ)
    ensures Zero(typ) == if Declared(typ, Id).value.typ == SqlInt then IntV(0) else StrV("")
  {
  }

  /** createSpec links over every to-many edge of the entity. */
  lemma LinksMatch(typ: EntityType, e: Edge)
    requires IsCreatable(typ)
    ensures e in LinkEdges(typ) <==> e in EdgesOf(typ) && !e.Rel().M2O?
  {
  }

  /** check asks for them in the order of the struct. */
  lemma RequiredInOrder()
    ensures RequiredColumns(UserSystem) == Columns(UserSystem)[1..]
    ensures RequiredColumns(Inode) == Columns(Inode)[1..13] && Columns(Inode)[13..] == [Content]
  {
  }

  /** A default is the one of the table, or the time of the creation. */
  lemma DefaultsMatch(typ: EntityType, c: Column, now: int)
    requires IsCreatable(typ)
    ensures c in DefaultColumns(typ) <==>
      Declared(typ, c).Some? && (Declared(typ, c).value.default.Some? || c == CreateTime || c == UpdateTime)
    ensures c in DefaultColumns(typ) ==>
      DefaultOf(c, now) ==
        if Declared(typ, c).value.default.Some? then Declared(typ, c).value.default.value else TimeV(now)
  {
  }

  /** What becomes of a column: the value the caller set, or else the time, one link, or zero. */
  function Expect(typ: EntityType, chosen: Row, now: int, c: Column): Option<Value> {
    if c == Id || Declared(typ, c).None? then None
    else if c in chosen then Some(chosen[c])
    else
      match c
      case CreateTime => Some(TimeV(now))
      case UpdateTime => Some(TimeV(now))
      case LinkCount => Some(IntV(1))
      case Uid => Some(IntV(0))
      case Gid => Some(IntV(0))
      case Size => Some(IntV(0))
      case _ => None
  }

  /** A row holds what becomes of every column. */
  ghost predicate Completed(typ: EntityType, chosen: Row, now: int, row: Row) {
    forall c :: Expect(typ, chosen, now, c) == if c in row then Some(row[c]) else None
  }

  /** The table takes what becomes of a column: a value if it may not be NULL, and no string that is too
      long. */
  predicate Takes(typ: EntityType, chosen: Row, now: int, c: Column) {
    c != Id && Declared(typ, c).Some? ==>
      && (!Declared(typ, c).value.nullable ==> Expect(typ, chosen, now, c).Some?)
      && (Declared(typ, c).value.size.Some? ==> Sized(Expect(typ, chosen, now, c), Declared(typ, c).value.size.value))
  }

  ghost predicate Storable(typ: EntityType, chosen: Row, now: int) {
    forall c :: Takes(typ, chosen, now, c)
  }

  predicate Sized(v: Option<Value>, size: nat) {
    v.Some? && v.value.StrV? ==> |v.value.s| <= size
  }

  lemma WrittenCompleted(typ: EntityType, chosen: Row, now: int)
    requires IsCreatable(typ)
    ensures Completed(typ, chosen, now, Written(typ, WithDefaults(typ, chosen, now)))
  {
    forall c
      ensures var row := Written(typ, WithDefaults(typ, chosen, now));
              Expect(typ, chosen, now, c) == if c in row then Some(row[c]) else None
    {
      WrittenColumn(typ, chosen, now, c);
    }
  }

  lemma WrittenColumn(typ: EntityType, chosen: Row, now: int, c: Column)
    requires IsCreatable(typ)
    ensures var row := Written(typ, WithDefaults(typ, chosen, now));
            Expect(typ, chosen, now, c) == if c in row then Some(row[c]) else None
  {
    hide SpecColumns, DefaultColumns, Declared, DefaultOf, Expect;
    FieldsMatch(typ, c);
    ExpectSet(typ, chosen, now, c);
    if c != Id && Declared(typ, c).Some? {
      DefaultExpected(typ, c, now);
    }
  }

  lemma ExpectSet(typ: EntityType, chosen: Row, now: int, c: Column)
    ensures Expect(typ, chosen, now, c) ==
      if c == Id || Declared(typ, c).None? then None
      else if c in chosen then Some(chosen[c])
      else Expect(typ, map[], now, c)
  {
    hide Declared;
  }

  lemma DefaultExpected(typ: EntityType, c: Column, now: int)
    requires IsCreatable(typ) && c != Id && Declared(typ, c).Some?
    ensures Expect(typ, map[], now, c) == if c in DefaultColumns(typ) then Some(DefaultOf(c, now)) else None
  {
  }

  /** An entity struct that was just created; an absent field has its zero value. */
  class Entity {
    var id: Value
    const fields: Row

    constructor (id: Value, fields: Row)
      ensures this.id == id && this.fields == fields
    {
      this.id, this.fields := id, fields;
    }

    /** All fields of the struct by column. */
    ghost function Struct(): Row
      reads this
    {
      fields[Id := id]
    }
  }

  datatype CreateSpec = CreateSpec(id: Option<Value>, fields: seq<(Column, Value)>, edges: seq<EdgeSpec>)

  class CreateMutation {
    const typ: EntityType
    const given: Option<Value>  // the id the client supplied
    const links: map<Edge, set<Value>>  // the ids added to its to-many edges
    var fields: Row
    var node: Entity?           // once saved, the id pointer aims at this entity's field
    var done: bool

    constructor (typ: EntityType, given: Option<Value>, links: map<Edge, set<Value>>, fields: Row)
      ensures this.typ == typ && this.given == given && this.links == links && this.fields == fields
      ensures node == null && !done
    {
      this.typ, this.given, this.links, this.fields, node, done := typ, given, links, fields, null, false;
    }

    function ID(): Option<Value>
      reads this, node
    {
      if node != null then Some(node.id) else given
    }

    method Defaults(now: int)
      modifies this`fields
      ensures fields == WithDefaults(typ, old(fields), now)
      ensures IsCreatable(typ) ==> Completed(typ, old(fields), now, Written(typ, fields))
    {
      if IsCreatable(typ) {
        WrittenCompleted(typ, fields, now);
      }
      hide Completed, Written;
      var columns := DefaultColumns(typ);
      var i := 0;
      while i < |columns|
        invariant 0 <= i <= |columns|
        invariant fields == (map c | c in columns[..i] :: DefaultOf(c, now)) + old(fields)
      {
        DefaultStep(columns, i, old(fields), now);
        if columns[i] !in fields {
          fields := fields[columns[i] := DefaultOf(columns[i], now)];
        }
        i := i + 1;
      }
      assert columns[..i] == columns;
    }

    /** check: the first required field that is missing, or the username if it is too long. */
    method Check() returns (bad: Option<Column>)
      ensures bad == Problem(typ, fields)
      ensures bad.None? <==> Accepted(typ, fields)
    {
      var columns := RequiredColumns(typ);
      hide RequiredColumns, UsernameOk;
      FirstMissingNone(fields, columns);
      var i := 0;
      while i < |columns|
        invariant 0 <= i <= |columns|
        invariant FirstMissing(fields, columns) == FirstMissing(fields, columns[i..])
      {
        assert columns[i..][1..] == columns[i + 1..];
        if columns[i] !in fields {
          return Some(columns[i]);
        }
        i := i + 1;
      }
      if typ == UserSystem && !UsernameOk(fields) {
        return Some(Username);
      }
      return None;
    }

    /** createSpec: what is sent to the store, and the struct that will be returned. */
    method Spec() returns (node: Entity, spec: CreateSpec)
      ensures fresh(node) && node.fields == Written(typ, fields)
      ensures node.id == if given.Some? then given.value else Zero(typ)
      ensures spec.id == given && SpecRow(spec) == Written(typ, fields)
      ensures IsCreatable(typ) ==> SpecLinks(typ, spec, links)
    {
      var columns := SpecColumns(typ);
      var out: seq<(Column, Value)> := [];
      var row: Row := map[];
      var i := 0;
      while i < |columns|
        invariant 0 <= i <= |columns|
        invariant row == map c | c in columns[..i] && c in fields :: fields[c]
        invariant SpecRow(CreateSpec(given, out, [])) == row
      {
        WrittenStep(columns, i, fields);
        if columns[i] in fields {
          assert out == (out + [(columns[i], fields[columns[i]])])[..|out|];
          out := out + [(columns[i], fields[columns[i]])];
          row := row[columns[i] := fields[columns[i]]];
        }
        i := i + 1;
      }
      assert columns[..i] == columns;
      node := new Entity(if given.Some? then given.value else Zero(typ), row);
      var edges := EmitLinks();
      SameRow(CreateSpec(given, out, []), edges);
      spec := CreateSpec(given, out, edges);
      if IsCreatable(typ) {
        forall e: Edge ensures e in LinkEdges(typ) <==> e in EdgesOf(typ) && !e.Rel().M2O? {
          LinksMatch(typ, e);
        }
      }
    }

    /** The edge part of createSpec. */
    method EmitLinks() returns (edges: seq<EdgeSpec>)
      ensures forall e: Edge :: ApplyAdds(edges, e, {}) == if e in LinkEdges(typ) then In(links, e) else {}
      ensures forall k :: 0 <= k < |edges| ==> edges[k].nodes != []
    {
      var all := LinkEdges(typ);
      edges := [];
      for i := 0 to |all|
        invariant forall e: Edge :: ApplyAdds(edges, e, {}) == if e in all[..i] then In(links, e) else {}
        invariant forall k :: 0 <= k < |edges| ==> edges[k].nodes != []
      {
        assert all[i] in all && all[..i + 1] == all[..i] + [all[i]];
        var nodes := Range(In(links, all[i]));
        if |nodes| > 0 {
          edges := edges + [EdgeSpec(all[i], nodes)];
        }
      }
      assert all[..|all|] == all;
    }
  }

  /** The zero value of an id field. */
  function Zero(typ: EntityType): Value {
    if typ == UserSystem then IntV(0) else StrV("")
  }

  ghost function Written(typ: EntityType, fields: Row): Row {
    map c | c in SpecColumns(typ) && c in fields :: fields[c]
  }

  /** The row a specification inserts, before the id. */
  function SpecRow(spec: CreateSpec): Row
    decreases |spec.fields|
  {
    if spec.fields == [] then map[]
    else
      var last := spec.fields[|spec.fields| - 1];
      SpecRow(spec.(fields := spec.fields[..|spec.fields| - 1]))[last.0 := last.1]
  }

  lemma {:induction false} SameRow(spec: CreateSpec, edges: seq<EdgeSpec>)
    ensures SpecRow(spec.(edges := edges)) == SpecRow(spec)
    decreases |spec.fields|
  {
    if spec.fields == [] {
    } else {
      SameRow(spec.(fields := spec.fields[..|spec.fields| - 1]), edges);
    }
  }

  /** The to-many edges createSpec links, in its order. */
  function LinkEdges(typ: EntityType): (edges: seq<Edge>)
    ensures forall e :: e in edges ==> !e.Rel().M2O?
    ensures Distinct(edges)
  {
    if typ == UserSystem then [UserSystem_Groups, UserSystem_UserGroups] else []
  }

  /** A specification links exactly the given ids over each to-many edge of the entity, and nothing
      else. */
  ghost predicate SpecLinks(typ: EntityType, spec: CreateSpec, links: map<Edge, set<Value>>) {
    forall e: Edge ::
      ApplyAdds(spec.edges, e, {}) == if e in EdgesOf(typ) && !e.Rel().M2O? then In(links, e) else {}
  }

  lemma DefaultStep(columns: seq<Column>, i: nat, fields: Row, now: int)
    requires i < |columns|
    ensures var upto := (map c | c in columns[..i] :: DefaultOf(c, now)) + fields;
            (map c | c in columns[..i + 1] :: DefaultOf(c, now)) + fields
            == if columns[i] in upto then upto else upto[columns[i] := DefaultOf(columns[i], now)]
  {
    assert columns[..i + 1] == columns[..i] + [columns[i]];
  }

  lemma WrittenStep(columns: seq<Column>, i: nat, fields: Row)
    requires i < |columns|
    ensures (map c | c in columns[..i + 1] && c in fields :: fields[c])
            == var upto := map c | c in columns[..i] && c in fields :: fields[c];
               if columns[i] in fields then upto[columns[i] := fields[columns[i]]] else upto
  {
    assert columns[..i + 1] == columns[..i] + [columns[i]];
  }

  /** The fields a caller must set: those required that have no default. */
  function MustSet(typ: EntityType): seq<Column> {
    if typ == UserSystem then [UserId, SystemId, Username] else [SystemId, Mode, Flags, Atime, Mtime, Ctime]
  }

  /** A creation is accepted exactly if the caller set every field without a default, and no user
      system has a username that is too long. */
  lemma AcceptedExactly(typ: EntityType, fields: Row, now: int)
    requires IsCreatable(typ)
    ensures Accepted(typ, WithDefaults(typ, fields, now))
            <==> (forall c :: c in MustSet(typ) ==> c in fields) && (typ == UserSystem ==> UsernameOk(fields))
  {
    hide RequiredColumns, DefaultColumns, MustSet;
    RequiredSplit(typ);
    assert forall c :: c in WithDefaults(typ, fields, now) <==> c in DefaultColumns(typ) || c in fields;
  }

  lemma RequiredSplit(typ: EntityType)
    requires IsCreatable(typ)
    ensures forall c :: c in RequiredColumns(typ) <==> c in DefaultColumns(typ) || c in MustSet(typ)
    ensures forall c :: c in MustSet(typ) ==> c !in DefaultColumns(typ)
    ensures Username !in DefaultColumns(typ)
  {
    forall c ensures c in RequiredColumns(typ) <==> c in DefaultColumns(typ) || c in MustSet(typ) {
    }
  }

  /** In terms of the table: a creation is accepted exactly if the table takes the row, and what check
      reports is a column it does not take. */
  lemma AcceptedStorable(typ: EntityType, chosen: Row, now: int)
    requires IsCreatable(typ)
    ensures Accepted(typ, WithDefaults(typ, chosen, now)) <==> Storable(typ, chosen, now)
    ensures var bad := Problem(typ, WithDefaults(typ, chosen, now)); bad.Some? ==> !Takes(typ, chosen, now, bad.value)
  {
    hide RequiredColumns, DefaultColumns, Declared, Expect, UsernameOk, Takes, WithDefaults;
    var fields := WithDefaults(typ, chosen, now);
    FirstMissingNone(fields, RequiredColumns(typ));
    forall c: Column
      ensures Takes(typ, chosen, now, c)
              <==> (c in RequiredColumns(typ) ==> c in fields)
                   && (typ == UserSystem && c == Username ==> UsernameOk(fields))
    {
      TakesColumn(typ, chosen, now, c);
    }
    if typ == UserSystem && !UsernameOk(fields) {
      assert !Takes(typ, chosen, now, Username);
    }
    if forall c :: c in RequiredColumns(typ) ==> c in fields {
      assert typ == UserSystem && !UsernameOk(fields) ==> !Storable(typ, chosen, now);
    }
  }

  lemma TakesColumn(typ: EntityType, chosen: Row, now: int, c: Column)
    requires IsCreatable(typ)
    ensures var fields := WithDefaults(typ, chosen, now);
            Takes(typ, chosen, now, c)
            <==> (c in RequiredColumns(typ) ==> c in fields)
                 && (typ == UserSystem && c == Username ==> UsernameOk(fields))
  {
    hide RequiredColumns, DefaultColumns, Declared, Expect, UsernameOk, DefaultOf, Sized;
    FieldsMatch(typ, c);
    SizedColumns(typ, c);
    ExpectSet(typ, chosen, now, c);
    if c != Id && Declared(typ, c).Some? {
      DefaultExpected(typ, c, now);
    }
    if typ == UserSystem {
      UsernameSized(typ, chosen, now);
    }
  }

  lemma SizedColumns(typ: EntityType, c: Column)
    requires IsCreatable(typ)
    ensures Declared(typ, c).Some? && Declared(typ, c).value.size.Some? <==> typ == UserSystem && c == Username
  {
  }

  lemma UsernameSized(typ: EntityType, chosen: Row, now: int)
    requires typ == UserSystem
    ensures Declared(typ, Username).Some? && Declared(typ, Username).value.size.Some?
    ensures UsernameOk(WithDefaults(typ, chosen, now))
            <==> Sized(Expect(typ, chosen, now, Username), Declared(typ, Username).value.size.value)
  {
    RequiredSplit(typ);
  }
}
