/** The seven tables and the edges between them, with the column names of the source. */
module Schema {
  import opened Seqs

  datatype EntityType = User | System | UserSystem | SystemGroup | UserGroup | Inode | Object

  /** One constructor per column name; `Other` is any name that is not a column of the schema. */
  datatype Column =
    | Id | CreateTime | UpdateTime | Username | Provider | ProviderId | JoinDate
    | Name | Description | Status
    | UserId | SystemId | Uid | Gid
    | UserSystemId | SystemGroupId
    | Mode | Size | LinkCount | Flags | Atime | Mtime | Ctime | Content
    | Bucket | StorageKey
    | Other(name: string)

  datatype Value = Null | IntV(n: int) | StrV(s: string) | TimeV(t: int) | BytesV(b: seq<int>)

  /** How the rows of an edge are related: foreign key on the owner, foreign key on the
      target, or a join table holding the owner's id in `outCol` and the target's in `inCol`. */
  datatype Rel =
    | M2O(fk: Column)
    | O2M(fk: Column)
    | M2M(table: EntityType, outCol: Column, inCol: Column)

  /** The edges, each named after its owner and its name there. */
  datatype Edge =
    | User_Systems | User_UserSystems
    | System_Inodes | System_Objects | System_Users
    | UserSystem_User | UserSystem_System | UserSystem_Groups | UserSystem_UserGroups
    | SystemGroup_System | SystemGroup_Users
    | UserGroup_UserSystem | UserGroup_SystemGroup
    | Inode_System
    | Object_System
  {
    function Owner(): EntityType {
      match this
      case User_Systems | User_UserSystems => User
      case System_Inodes | System_Objects | System_Users => System
      case UserSystem_User | UserSystem_System | UserSystem_Groups | UserSystem_UserGroups => UserSystem
      case SystemGroup_System | SystemGroup_Users => SystemGroup
      case UserGroup_UserSystem | UserGroup_SystemGroup => UserGroup
      case Inode_System => Inode
      case Object_System => Object
    }

    function Target(): EntityType {
      match this
      case User_Systems | UserSystem_System | SystemGroup_System | Inode_System | Object_System => System
      case System_Users | UserSystem_User => User
      case User_UserSystems | SystemGroup_Users | UserGroup_UserSystem => UserSystem
      case UserSystem_Groups | UserGroup_SystemGroup => SystemGroup
      case UserSystem_UserGroups => UserGroup
      case System_Inodes => Inode
      case System_Objects => Object
    }

    function Rel(): Rel {
      match this
      case User_Systems => M2M(UserSystem, UserId, SystemId)
      case User_UserSystems => O2M(UserId)
      case System_Inodes => O2M(SystemId)
      case System_Objects => O2M(SystemId)
      case System_Users => M2M(UserSystem, SystemId, UserId)
      case UserSystem_User => M2O(UserId)
      case UserSystem_System => M2O(SystemId)
      case UserSystem_Groups => M2M(UserGroup, UserSystemId, SystemGroupId)
      case UserSystem_UserGroups => O2M(UserSystemId)
      case SystemGroup_System => M2O(SystemId)
      case SystemGroup_Users => M2M(UserGroup, SystemGroupId, UserSystemId)
      case UserGroup_UserSystem => M2O(UserSystemId)
      case UserGroup_SystemGroup => M2O(SystemGroupId)
      case Inode_System => M2O(SystemId)
      case Object_System => M2O(SystemId)
    }
  }

  /** The edges of an entity, in the order its query loads them. */
  function EdgesOf(typ: EntityType): seq<Edge> {
    match typ
    case User => [User_Systems, User_UserSystems]
    case System => [System_Inodes, System_Objects, System_Users]
    case UserSystem => [UserSystem_User, UserSystem_System, UserSystem_Groups, UserSystem_UserGroups]
    case SystemGroup => [SystemGroup_System, SystemGroup_Users]
    case UserGroup => [UserGroup_UserSystem, UserGroup_SystemGroup]
    case Inode => [Inode_System]
    case Object => [Object_System]
  }

  /** A query loads exactly the edges its entity owns, each once. */
  lemma EdgesOfOwner(typ: EntityType)
    ensures forall e: Edge :: e in EdgesOf(typ) <==> e.Owner() == typ
    ensures Distinct(EdgesOf(typ))
  {
    forall e: Edge | e.Owner() == typ ensures e in EdgesOf(typ) {
      match typ
      case User => assert e == EdgesOf(typ)[0] || e == EdgesOf(typ)[1];
      case System => assert e == EdgesOf(typ)[0] || e == EdgesOf(typ)[1] || e == EdgesOf(typ)[2];
      case UserSystem =>
        assert e == EdgesOf(typ)[0] || e == EdgesOf(typ)[1] || e == EdgesOf(typ)[2] || e == EdgesOf(typ)[3];
      case SystemGroup => assert e == EdgesOf(typ)[0] || e == EdgesOf(typ)[1];
      case UserGroup => assert e == EdgesOf(typ)[0] || e == EdgesOf(typ)[1];
      case Inode => assert e == EdgesOf(typ)[0];
      case Object => assert e == EdgesOf(typ)[0];
    }
  }

  function Columns(typ: EntityType): seq<Column> {
    match typ
    case User => [Id, CreateTime, UpdateTime, Username, Provider, ProviderId, JoinDate]
    case System => [Id, CreateTime, UpdateTime, Name, Description, Status]
    case UserSystem => [Id, UserId, SystemId, Uid, Gid, Username]
    case SystemGroup => [Id, SystemId, Name, Gid]
    case UserGroup => [Id, UserSystemId, SystemGroupId]
    case Inode => [Id, CreateTime, UpdateTime, SystemId, Mode, Uid, Gid, Size, LinkCount, Flags,
                   Atime, Mtime, Ctime, Content]
    case Object => [Id, CreateTime, UpdateTime, Provider, Bucket, SystemId, StorageKey, Status]
  }

  /** The columns the schema declares NOT NULL and the loaders read: the id and the foreign keys. */
  function KeyColumns(typ: EntityType): seq<Column> {
    match typ
    case User => [Id]
    case System => [Id]
    case UserSystem => [Id, UserId, SystemId]
    case SystemGroup => [Id, SystemId]
    case UserGroup => [Id, UserSystemId, SystemGroupId]
    case Inode => [Id, SystemId]
    case Object => [Id, SystemId]
  }

  /** Every edge reads columns that exist: its foreign key, or both join columns, are NOT NULL
      columns of the table that holds them, and never the id. */
  lemma EdgeColumns(e: Edge)
    ensures match e.Rel()
            case M2O(fk) => fk in KeyColumns(e.Owner()) && fk in Columns(e.Owner()) && fk != Id
            case O2M(fk) => fk in KeyColumns(e.Target()) && fk in Columns(e.Target()) && fk != Id
            case M2M(t, o, i) => o in KeyColumns(t) && i in KeyColumns(t) && o != i
  {
  }

  datatype Kind = KInt | KString | KTime | KBytes

  /** The Go type of the struct field that holds a column: the join entities and their ends have
      integer ids, everything else string ids. */
  function KindOf(typ: EntityType, c: Column): Kind {
    match c
    case Id => if typ == UserSystem || typ == SystemGroup || typ == UserGroup then KInt else KString
    case UserSystemId | SystemGroupId | Uid | Gid | Mode | Size | LinkCount | Flags => KInt
    case CreateTime | UpdateTime | JoinDate | Atime | Mtime | Ctime => KTime
    case Content => KBytes
    case _ => KString
  }

  predicate HasKind(v: Value, k: Kind) {
    match k
    case KInt => v.IntV?
    case KString => v.StrV?
    case KTime => v.TimeV?
    case KBytes => v.BytesV?
  }
}
