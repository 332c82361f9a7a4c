/** The tables as the migration declares them, column by column. Everything the other modules say about
    columns is compared with this. */
module Migration {
  import opened Seqs
  import opened Schema
  import opened Store

  datatype SqlType = SqlInt | SqlString | SqlTime | SqlBytes | SqlEnum(values: seq<string>)

  /** A column: whether it may be NULL, the value of a row that leaves it out, and the size of a string. */
  datatype SqlColumn = SqlColumn(typ: SqlType, nullable: bool, default: Option<Value>, increment: bool,
                                 size: Option<nat>)

  function Plain(typ: SqlType): Option<SqlColumn> {
    Some(SqlColumn(typ, false, None, false, None))
  }

  function Serial(): Option<SqlColumn> {
    Some(SqlColumn(SqlInt, false, None, true, None))
  }

  function Number(n: int): Option<SqlColumn> {
    Some(SqlColumn(SqlInt, false, Some(IntV(n)), false, None))
  }

  function Text(size: nat): Option<SqlColumn> {
    Some(SqlColumn(SqlString, false, None, false, Some(size)))
  }

  function Enum(values: seq<string>, s: string): Option<SqlColumn> {
    Some(SqlColumn(SqlEnum(values), false, Some(StrV(s)), false, None))
  }

  function Nullable(typ: SqlType, size: Option<nat>): Option<SqlColumn> {
    Some(SqlColumn(typ, true, None, false, size))
  }

  function Inodes(c: Column): Option<SqlColumn> {
    match c
    case Id => Plain(SqlString)
    case CreateTime => Plain(SqlTime)
    case UpdateTime => Plain(SqlTime)
    case Mode => Plain(SqlInt)
    case Uid => Number(0)
    case Gid => Number(0)
    case Size => Number(0)
    case LinkCount => Number(1)
    case Flags => Plain(SqlInt)
    case Atime => Plain(SqlTime)
    case Mtime => Plain(SqlTime)
    case Ctime => Plain(SqlTime)
    case Content => Nullable(SqlBytes, None)
    case SystemId => Plain(SqlString)
    case _ => None
  }

  function Objects(c: Column): Option<SqlColumn> {
    match c
    case Id => Plain(SqlString)
    case CreateTime => Plain(SqlTime)
    case UpdateTime => Plain(SqlTime)
    case Provider => Enum(["s3"], "s3")
    case Bucket => Plain(SqlString)
    case StorageKey => Plain(SqlString)
    case Status => Enum(["pending", "active"], "active")
    case SystemId => Plain(SqlString)
    case _ => None
  }

  function Systems(c: Column): Option<SqlColumn> {
    match c
    case Id => Plain(SqlString)
    case CreateTime => Plain(SqlTime)
    case UpdateTime => Plain(SqlTime)
    case Name => Text(64)
    case Description => Nullable(SqlString, Some(255))
    case Status => Enum(["active", "inactive", "maintenance"], "active")
    case _ => None
  }

  function SystemGroups(c: Column): Option<SqlColumn> {
    match c
    case Id => Serial()
    case Name => Text(32)
    case Gid => Number(0)
    case SystemId => Plain(SqlString)
    case _ => None
  }

  function Users(c: Column): Option<SqlColumn> {
    match c
    case Id => Plain(SqlString)
    case CreateTime => Plain(SqlTime)
    case UpdateTime => Plain(SqlTime)
    case Username => Text(32)
    case Provider => Text(32)
    case ProviderId => Text(255)
    case JoinDate => Plain(SqlTime)
    case _ => None
  }

  function UserGroups(c: Column): Option<SqlColumn> {
    match c
    case Id => Serial()
    case UserSystemId => Plain(SqlInt)
    case SystemGroupId => Plain(SqlInt)
    case _ => None
  }

  function UserSystems(c: Column): Option<SqlColumn> {
    match c
    case Id => Serial()
    case Uid => Number(0)
    case Gid => Number(0)
    case Username => Text(32)
    case UserId => Plain(SqlString)
    case SystemId => Plain(SqlString)
    case _ => None
  }

  function Declared(table: EntityType, c: Column): Option<SqlColumn> {
    match table
    case Inode => Inodes(c)
    case Object => Objects(c)
    case System => Systems(c)
    case SystemGroup => SystemGroups(c)
    case User => Users(c)
    case UserGroup => UserGroups(c)
    case UserSystem => UserSystems(c)
  }

  /** The table a foreign key refers to. */
  function References(table: EntityType, c: Column): Option<EntityType> {
    match (table, c)
    case (Inode, SystemId) => Some(System)
    case (Object, SystemId) => Some(System)
    case (SystemGroup, SystemId) => Some(System)
    case (UserGroup, UserSystemId) => Some(UserSystem)
    case (UserGroup, SystemGroupId) => Some(SystemGroup)
    case (UserSystem, UserId) => Some(User)
    case (UserSystem, SystemId) => Some(System)
    case _ => None
  }

  /** The unique indexes over two keys. */
  function UniqueIndex(table: EntityType): Option<(Column, Column)> {
    match table
    case UserGroup => Some((UserSystemId, SystemGroupId))
    case UserSystem => Some((UserId, SystemId))
    case _ => None
  }

  function SqlKind(t: SqlType): Kind {
    match t
    case SqlInt => KInt
    case SqlTime => KTime
    case SqlBytes => KBytes
    case _ => KString
  }

  /** A column takes a string: one of its values, or one that is not too long. */
  predicate FitsColumn(sc: SqlColumn, v: Value) {
    v.StrV? ==>
      match sc.typ
      case SqlEnum(values) => v.s in values
      case _ => sc.size.Some? ==> |v.s| <= sc.size.value
  }

  // ---------------------------------------------------------------- what the loaders know

  /** The entities have the columns of their tables, each once, of the right kinds. */
  lemma ColumnsMatch(typ: EntityType, c: Column)
    ensures c in Columns(typ) <==> Declared(typ, c).Some?
    ensures Declared(typ, c).Some? ==> KindOf(typ, c) == SqlKind(Declared(typ, c).value.typ)
    ensures Distinct(Columns(typ))
  {
    hide Columns, Declared, KindOf, SqlKind;
    ColumnsOnce(typ);
    ColumnsDeclared(typ, c);
    if Declared(typ, c).Some? {
      KindsMatch(typ, c);
    }
  }

  lemma ColumnsOnce(typ: EntityType)
    ensures Distinct(Columns(typ))
  {
  }

  lemma ColumnsDeclared(typ: EntityType, c: Column)
    ensures c in Columns(typ) <==> Declared(typ, c).Some?
  {
    hide Columns, Inodes, Objects, Systems, SystemGroups, Users, UserGroups, UserSystems;
    InodesListed(c);
    ObjectsListed(c);
    UsersAndSystemsListed(c);
    MembersListed(c);
  }

  lemma InodesListed(c: Column)
    ensures c in Columns(Inode) <==> Inodes(c).Some?
  {
  }

  lemma ObjectsListed(c: Column)
    ensures c in Columns(Object) <==> Objects(c).Some?
  {
  }

  lemma UsersAndSystemsListed(c: Column)
    ensures c in Columns(User) <==> Users(c).Some?
    ensures c in Columns(System) <==> Systems(c).Some?
  {
  }

  lemma MembersListed(c: Column)
    ensures c in Columns(SystemGroup) <==> SystemGroups(c).Some?
    ensures c in Columns(UserSystem) <==> UserSystems(c).Some?
    ensures c in Columns(UserGroup) <==> UserGroups(c).Some?
  {
  }

  lemma KindsMatch(typ: EntityType, c: Column)
    requires Declared(typ, c).Some?
    ensures KindOf(typ, c) == SqlKind(Declared(typ, c).value.typ)
  {
    hide Columns;
  }

  /** What a row gets that leaves a column out: integer ids number themselves, the other integers with a
      default are zero but for the link count, and the remaining defaults are values of their column. */
  lemma LeftOut(typ: EntityType, c: Column)
    requires Declared(typ, c).Some?
    ensures Declared(typ, c).value.increment <==> c == Id && KindOf(typ, c) == KInt
    ensures match Declared(typ, c).value.default
            case None => true
            case Some(IntV(n)) => n == (if c == LinkCount then 1 else 0)
            case Some(v) => HasKind(v, KindOf(typ, c)) && FitsColumn(Declared(typ, c).value, v)
  {
    KindsMatch(typ, c);
  }

  /** The key columns are the primary key and the foreign keys; none of them may be NULL. */
  lemma KeysMatch(typ: EntityType, c: Column)
    ensures c in KeyColumns(typ) <==> c == Id || References(typ, c).Some?
    ensures c in KeyColumns(typ) ==> Declared(typ, c).Some? && !Declared(typ, c).value.nullable
  {
  }

  /** Every edge follows foreign keys of the tables, in the right direction. */
  lemma EdgesRefer(e: Edge)
    ensures match e.Rel()
            case M2O(fk) => References(e.Owner(), fk) == Some(e.Target())
            case O2M(fk) => References(e.Target(), fk) == Some(e.Owner())
            case M2M(t, o, i) => References(t, o) == Some(e.Owner()) && References(t, i) == Some(e.Target())
  {
  }

  /** And a table refers to another one by a single column, so the columns are those. */
  lemma ReferOnce(table: EntityType, c: Column, d: Column)
    requires References(table, c).Some? && References(table, c) == References(table, d)
    ensures c == d
  {
  }

  /** The join tables have unique indexes over their keys. */
  lemma JoinsAreUnique(e: Edge)
    ensures match e.Rel()
            case M2M(t, o, i) => UniqueIndex(t) == Some((o, i)) || UniqueIndex(t) == Some((i, o))
            case _ => true
  {
  }

  /** Row `c` is on edge `e` of row `p`, by the foreign keys of the tables alone: one of the two rows
      refers to the other, or a row of some third table refers to both. */
  ghost predicate Refers(db: Db, e: Edge, p: Row, c: Row) {
    if e.Rel().M2O? then
      exists fk :: References(e.Owner(), fk) == Some(e.Target()) && Get(p, fk) == IdOf(c)
    else if e.Rel().O2M? then
      exists fk :: References(e.Target(), fk) == Some(e.Owner()) && Get(c, fk) == IdOf(p)
    else
      exists j, o, i ::
        && j in Table(db, e.Rel().table)
        && References(e.Rel().table, o) == Some(e.Owner()) && Get(j, o) == IdOf(p)
        && References(e.Rel().table, i) == Some(e.Target()) && Get(j, i) == IdOf(c)
  }

  lemma RelatedRefers(db: Db, e: Edge, p: Row, c: Row)
    ensures Related(db, e, p, c) <==> Refers(db, e, p, c)
  {
    hide References;
    EdgesRefer(e);
    match e.Rel()
    case M2O(fk) =>
      if k :| References(e.Owner(), k) == Some(e.Target()) && Get(p, k) == IdOf(c) {
        ReferOnce(e.Owner(), k, fk);
      }
    case O2M(fk) =>
      if k :| References(e.Target(), k) == Some(e.Owner()) && Get(c, k) == IdOf(p) {
        ReferOnce(e.Target(), k, fk);
      }
    case M2M(t, o, i) => JoinedRefers(db, e, t, o, i, p, c);
  }

  lemma JoinedRefers(db: Db, e: Edge, t: EntityType, o: Column, i: Column, p: Row, c: Row)
    requires e.Rel() == M2M(t, o, i)
    requires References(t, o) == Some(e.Owner()) && References(t, i) == Some(e.Target())
    ensures Related(db, e, p, c) <==> Refers(db, e, p, c)
  {
    hide References, Get;
    if j, k, l :|
      && j in Table(db, t)
      && References(t, k) == Some(e.Owner()) && Get(j, k) == IdOf(p)
      && References(t, l) == Some(e.Target()) && Get(j, l) == IdOf(c)
    {
      ReferOnce(t, k, o);
      ReferOnce(t, l, i);
    }
  }
}
