/** CreateBulk.Save: one chain of mutators, each wrapped in its builder's hooks, that prepares every
    builder on the way down, creates the whole batch at the bottom, and marks the mutations done on
    the way up. */
module Bulk {
  import opened Schema
  import opened Store
  import opened Create

  /** A hook that calls the next mutator once, with the mutation it was given. Before that, and again
      after the next mutator succeeded, it looks at the fields of the mutation and changes them, or
      fails. */
  datatype Hook = Hook(before: Row -> Option<Row>, after: Row -> Option<Row>)

  /** The store's answer to the batch: for each row an id, or none to report. */
  datatype Reply = BatchOk(ids: seq<Option<Value>>) | BatchFailed

  class Builder {
    const mutation: CreateMutation
    const hooks: seq<Hook>

    constructor (mutation: CreateMutation, hooks: seq<Hook>)
      ensures this.mutation == mutation && this.hooks == hooks
    {
      this.mutation, this.hooks := mutation, hooks;
    }
  }

  /** The store, with a log of the batches it was asked to create. */
  class Driver {
    const reply: Reply
    ghost var batches: seq<seq<CreateSpec>>

    constructor (reply: Reply)
      ensures this.reply == reply && batches == []
    {
      this.reply, batches := reply, [];
    }

    /** BatchCreate: fills in the ids of the rows that have none. The id of an inode is NOT NULL and
        has no default, so a batch that leaves one open is refused. */
    method BatchCreate(typ: EntityType, specs: array<CreateSpec>) returns (ok: bool)
      requires reply.BatchOk? ==> |reply.ids| == specs.Length
      modifies this`batches, specs
      ensures batches == old(batches) + [old(specs[..])]
      ensures ok <==> reply.BatchOk? && (typ == Inode ==> forall j :: 0 <= j < specs.Length ==> old(specs[j]).id.Some?)
      ensures !ok ==> specs[..] == old(specs[..])
      ensures ok ==> forall j :: 0 <= j < specs.Length ==> specs[j] == FillId(old(specs[j]), reply.ids[j])
    {
      batches := batches + [specs[..]];
      if reply.BatchFailed? || (typ == Inode && exists j :: 0 <= j < specs.Length && specs[j].id.None?) {
        return false;
      }
      var i := 0;
      while i < specs.Length
        invariant 0 <= i <= specs.Length
        invariant batches == old(batches) + [old(specs[..])]
        invariant forall j :: 0 <= j < i ==> specs[j] == FillId(old(specs[j]), reply.ids[j])
        invariant forall j :: i <= j < specs.Length ==> specs[j] == old(specs[j])
      {
        specs[i] := FillId(specs[i], reply.ids[i]);
        i := i + 1;
      }
      return true;
    }
  }

  function FillId(spec: CreateSpec, id: Option<Value>): CreateSpec {
    if spec.id.None? then spec.(id := id) else spec
  }

  // ---------------------------------------------------------------- what should happen

  /** One builder as it enters the chain: its links, its fields after defaults, and its hooks. */
  datatype Item = Item(given: Option<Value>, links: map<Edge, set<Value>>, fields: Row, hooks: seq<Hook>)

  /** The fields after the first `k` hooks on the way down, unless one of them failed. */
  ghost function Edited(item: Item, k: nat): Option<Row>
    requires k <= |item.hooks|
  {
    if k == 0 then Some(item.fields)
    else
      match Edited(item, k - 1)
      case None => None
      case Some(fields) => item.hooks[k - 1].before(fields)
  }

  /** The fields the check sees and createSpec writes, if no hook failed. */
  ghost function Final(item: Item): Row {
    var fields := Edited(item, |item.hooks|);
    if fields.Some? then fields.value else map[]
  }

  /** The fields after the hooks down to `k` on the way up, unless one of them failed. */
  ghost function Lifted(item: Item, k: nat): Option<Row>
    requires k <= |item.hooks|
    decreases |item.hooks| - k
  {
    if k == |item.hooks| then Some(Final(item))
    else
      match Lifted(item, k + 1)
      case None => None
      case Some(fields) => item.hooks[k].after(fields)
  }

  /** The way down is open: no hook fails, and the check passes. */
  ghost predicate Down(typ: EntityType, item: Item) {
    Edited(item, |item.hooks|).Some? && Accepted(typ, Final(item))
  }

  ghost predicate Up(item: Item) {
    Lifted(item, 0).Some?
  }

  /** The store creates a batch of these builders: an inode needs an id from its client. */
  ghost predicate Created(typ: EntityType, items: seq<Item>, reply: Reply) {
    reply.BatchOk? && (typ == Inode ==> forall j :: 0 <= j < |items| ==> items[j].given.Some?)
  }

  ghost predicate AllDown(typ: EntityType, items: seq<Item>, i: nat) {
    forall j :: i <= j < |items| ==> Down(typ, items[j])
  }

  ghost predicate AllUp(items: seq<Item>, i: nat) {
    forall j :: i <= j < |items| ==> Up(items[j])
  }

  /** The specification of one row is complete: the fields after all hooks, the links, and the
      client's id. */
  ghost predicate SpecOf(typ: EntityType, item: Item, spec: CreateSpec) {
    spec.id == item.given && SpecRow(spec) == Written(typ, Final(item)) && SpecLinks(typ, spec, item.links)
  }

  /** A batch holds the complete specifications of all builders, in their order. */
  ghost predicate BatchOf(typ: EntityType, items: seq<Item>, batch: seq<CreateSpec>) {
    |batch| == |items| && forall j :: 0 <= j < |items| ==> SpecOf(typ, items[j], batch[j])
  }

  /** The id of the row the store created, as far as it is known: the client's, or the one reported. */
  function StoredId(given: Option<Value>, reported: Option<Value>): Option<Value> {
    if given.Some? then given else reported
  }

  /** The id of a struct: the stored one, or zero if none was reported. */
  predicate HasId(typ: EntityType, id: Value, stored: Option<Value>) {
    id == if stored.Some? then stored.value else Zero(typ)
  }

  /** A failure on the way down is final. */
  lemma {:induction false} FailedBelow(typ: EntityType, item: Item, k: nat)
    requires k <= |item.hooks| && Edited(item, k).None?
    ensures !Down(typ, item)
    decreases |item.hooks| - k
  {
    if k == |item.hooks| {
    } else {
      FailedBelow(typ, item, k + 1);
    }
  }

  /** The fields that reach the core are the final ones. */
  lemma AtCore(typ: EntityType, item: Item, fields: Row)
    requires Edited(item, |item.hooks|) == Some(fields)
    ensures Final(item) == fields && Lifted(item, |item.hooks|) == Some(fields)
    ensures Down(typ, item) <==> Accepted(typ, fields)
  {
  }

  // ---------------------------------------------------------------- the chain

  /** The variables shared by the closures of one Save. */
  class Chain {
    const typ: EntityType
    const builders: seq<Builder>
    const driver: Driver
    const specs: array<CreateSpec>
    const nodes: array<Entity?>
    ghost const items: seq<Item>
    ghost const pointers: seq<Entity?>  // what the id pointers aimed at before

    ghost predicate Valid() {
      && IsCreatable(typ) && |items| == |pointers| == |builders| == specs.Length == nodes.Length
      && (driver.reply.BatchOk? ==> |driver.reply.ids| == |builders|)
      && (forall j :: 0 <= j < |builders| ==>
            && builders[j].mutation.typ == typ && builders[j].hooks == items[j].hooks
            && builders[j].mutation.given == items[j].given && builders[j].mutation.links == items[j].links)
      && (forall j, k :: 0 <= j < k < |builders| ==> builders[j].mutation != builders[k].mutation)
    }

    constructor (typ: EntityType, builders: seq<Builder>, driver: Driver, ghost items: seq<Item>)
      requires IsCreatable(typ) && |items| == |builders|
      requires driver.reply.BatchOk? ==> |driver.reply.ids| == |builders|
      requires forall j :: 0 <= j < |builders| ==>
        && builders[j].mutation.typ == typ && builders[j].hooks == items[j].hooks
        && builders[j].mutation.given == items[j].given && builders[j].mutation.links == items[j].links
      requires forall j, k :: 0 <= j < k < |builders| ==> builders[j].mutation != builders[k].mutation
      ensures Valid() && fresh(specs) && fresh(nodes)
      ensures this.typ == typ && this.builders == builders && this.driver == driver && this.items == items
      ensures forall j :: 0 <= j < |builders| ==> pointers[j] == builders[j].mutation.node
    {
      this.typ, this.builders, this.driver, this.items := typ, builders, driver, items;
      pointers := seq(|builders|, j requires 0 <= j < |builders|
                                    reads set b | b in builders :: b.mutation => builders[j].mutation.node);
      specs := new CreateSpec[|builders|](_ => CreateSpec(None, [], []));
      nodes := new Entity?[|builders|](_ => null);
    }

    ghost function Mutations(i: nat): set<CreateMutation> {
      set j | i <= j < |builders| :: builders[j].mutation
    }

    /** Builders from `i` on have not been reached. */
    ghost predicate Waiting(i: nat)
      requires Valid()
      reads Mutations(i)
    {
      forall j :: i <= j < |builders| ==>
        assert builders[j].mutation in Mutations(i);
        && builders[j].mutation.fields == items[j].fields && !builders[j].mutation.done
        && builders[j].mutation.node == pointers[j]
    }

    /** The specifications of the first `i` builders are in place. */
    ghost predicate Prepared(i: nat)
      requires Valid() && i <= |builders|
      reads specs
    {
      forall j :: 0 <= j < i ==> SpecOf(typ, items[j], specs[j])
    }

    /** Builder `j` was saved: its id pointer aims at the struct that is returned for it. */
    ghost predicate SavedAt(j: nat)
      requires Valid() && j < |builders| && driver.reply.BatchOk?
      reads nodes, nodes[j], builders[j].mutation`node
    {
      var m, node := builders[j].mutation, nodes[j];
      && node != null && m.node == node
      && node.fields == Written(typ, Final(items[j]))
      && HasId(typ, node.id, StoredId(items[j].given, driver.reply.ids[j]))
    }

    /** At most one batch was created, complete and in builder order, and only if it was reached. */
    ghost predicate Batched(before: seq<seq<CreateSpec>>, reached: bool)
      requires Valid()
      reads driver
    {
      if reached then
        && |driver.batches| == |before| + 1 && driver.batches[..|before|] == before
        && BatchOf(typ, items, driver.batches[|before|])
      else driver.batches == before
    }

    /** After the chain from builder `i` on: which mutations are done, and what they point at. The others
        aim at what they did before. */
    ghost predicate Marked(i: nat, reached: bool)
      requires Valid() && i <= |builders|
      reads nodes, (set node: Entity? | node in nodes[..]), Mutations(i)`node, Mutations(i)`done
    {
      forall j :: i <= j < |builders| ==>
        assert builders[j].mutation in Mutations(i);
        assert nodes[j] in nodes[..];
        && (builders[j].mutation.done <==> reached && Created(typ, items, driver.reply) && AllUp(items, j + 1))
        && (if builders[j].mutation.done then SavedAt(j) else builders[j].mutation.node == pointers[j])
    }

    /** The mutations from builder `i` on hold what their hooks left on the way up. */
    ghost predicate Settled(i: nat)
      requires Valid()
      reads Mutations(i)`fields
    {
      forall j :: i <= j < |builders| ==>
        assert builders[j].mutation in Mutations(i);
        Lifted(items[j], 0) == Some(builders[j].mutation.fields)
    }

    /** The specifications up to builder `i` carry their ids. */
    ghost predicate Filled(i: nat)
      requires Valid() && i <= |builders| && driver.reply.BatchOk?
      reads specs
    {
      forall j :: 0 <= j < i ==> specs[j].id == if items[j].given.Some? then items[j].given else driver.reply.ids[j]
    }

    /** The mutator of builder `i` below its hooks. */
    method Core(i: nat) returns (ok: bool)
      requires Valid() && i < |builders|
      requires Edited(items[i], |items[i].hooks|) == Some(builders[i].mutation.fields)
      requires !builders[i].mutation.done && builders[i].mutation.node == pointers[i]
      requires Waiting(i + 1) && Prepared(i)
      modifies driver`batches, specs, nodes, Mutations(i)
      ensures Batched(old(driver.batches), AllDown(typ, items, i))
      ensures ok <==> AllDown(typ, items, i) && Created(typ, items, driver.reply) && AllUp(items, i + 1)
      ensures Marked(i, AllDown(typ, items, i))
      ensures AllDown(typ, items, i) && Created(typ, items, driver.reply) ==> Filled(i)
      ensures builders[i].mutation.fields == old(builders[i].mutation.fields) && (ok ==> Settled(i + 1))
      ensures forall j :: 0 <= j < i ==> nodes[j] == old(nodes[j])
      ensures forall j :: i <= j < |builders| && builders[j].mutation.done ==> fresh(nodes[j])
      decreases |builders| - i, 1
    {
      hide AllDown, AllUp, BatchOf, Accepted, Written, Final, SavedAt, Down, Up, Created, Edited;
      hide Marked, Prepared, Waiting;
      var m := builders[i].mutation;
      AtCore(typ, items[i], m.fields);
      var bad := m.Check();
      MutationsMore(i);
      OneLess(i);
      if bad.Some? {
        NoneMarked(i, AllDown(typ, items, i));
        return false;
      }
      var node := Place(i, m);
      ok := Descend(i + 1);
      if ok {
        Finish(i, node);
      } else {
        NotMarked(i, AllDown(typ, items, i + 1));
      }
    }

    /** createSpec, into the slots of builder `i`. */
    method Place(i: nat, m: CreateMutation) returns (node: Entity)
      requires Valid() && i < |builders| && builders[i].mutation == m && m.fields == Final(items[i]) && Prepared(i)
      modifies specs, nodes
      ensures fresh(node) && nodes[i] == node && node.fields == Written(typ, Final(items[i]))
      ensures node.id == if items[i].given.Some? then items[i].given.value else Zero(typ)
      ensures Prepared(i + 1)
      ensures forall j :: 0 <= j < |builders| && j != i ==> nodes[j] == old(nodes[j])
    {
      hide Written, Final, SpecLinks;
      var spec;
      node, spec := m.Spec();
      nodes[i], specs[i] := node, spec;
    }

    /** The marks of builder `i` when it is not saved. */
    lemma NotMarked(i: nat, reached: bool)
      requires Valid() && i < |builders| && Marked(i + 1, reached)
      requires !builders[i].mutation.done && builders[i].mutation.node == pointers[i]
      requires !(reached && Created(typ, items, driver.reply) && AllUp(items, i + 1))
      ensures Marked(i, reached)
    {
      hide SavedAt;
      MutationsMore(i);
    }

    lemma NoneMarked(i: nat, reached: bool)
      requires Valid() && i < |builders| && Waiting(i + 1) && !reached
      requires !builders[i].mutation.done && builders[i].mutation.node == pointers[i]
      ensures Marked(i, reached) && forall j :: i <= j < |builders| ==> !builders[j].mutation.done
    {
      hide SavedAt;
      MutationsMore(i);
      forall j | i < j < |builders| ensures !builders[j].mutation.done {
        assert builders[j].mutation in Mutations(i + 1);
      }
    }

    /** On the way up: the mutation's id pointer, the struct's id, and done. */
    method Finish(i: nat, node: Entity)
      requires Valid() && i < |builders| && Created(typ, items, driver.reply) && Filled(i + 1)
      requires nodes[i] == node && node.fields == Written(typ, Final(items[i]))
      requires node.id == if items[i].given.Some? then items[i].given.value else Zero(typ)
      requires Marked(i + 1, true) && AllUp(items, i + 1)
      requires forall j :: i < j < |builders| && builders[j].mutation.done ==> nodes[j] != node
      modifies node`id, builders[i].mutation`node, builders[i].mutation`done
      ensures Marked(i, true)
      ensures forall j :: i < j < |builders| ==> builders[j].mutation.done == old(builders[j].mutation.done)
    {
      hide AllUp, Written, Final;
      MutationsMore(i);
      var m := builders[i].mutation;
      m.node := nodes[i];
      if typ == UserSystem && specs[i].id.Some? {
        node.id := specs[i].id.value;
      }
      m.done := true;
    }

    lemma MutationsMore(i: nat)
      requires Valid() && i < |builders|
      ensures Mutations(i) == Mutations(i + 1) + {builders[i].mutation} && builders[i].mutation !in Mutations(i + 1)
    {
    }

    /** Whether what remains is open, one builder further down. */
    lemma OneLess(i: nat)
      requires Valid() && i < |builders|
      ensures AllDown(typ, items, i) <==> Down(typ, items[i]) && AllDown(typ, items, i + 1)
      ensures AllUp(items, i) <==> Up(items[i]) && AllUp(items, i + 1)
    {
    }

    /** From the core of builder `i - 1`: the next mutator, or the batch after the last one. */
    method Descend(i: nat) returns (ok: bool)
      requires Valid() && 0 < i <= |builders| && Waiting(i) && Prepared(i)
      modifies driver`batches, specs, nodes, Mutations(i)
      ensures Batched(old(driver.batches), AllDown(typ, items, i))
      ensures ok <==> AllDown(typ, items, i) && Created(typ, items, driver.reply) && AllUp(items, i)
      ensures ok ==> Settled(i)
      ensures Marked(i, AllDown(typ, items, i))
      ensures AllDown(typ, items, i) && Created(typ, items, driver.reply) ==> Filled(i)
      ensures forall j :: 0 <= j < i ==> nodes[j] == old(nodes[j])
      ensures forall j :: i <= j < |builders| && builders[j].mutation.done ==> fresh(nodes[j])
      decreases |builders| - i + 1, 0
    {
      hide Accepted, SavedAt;
      if i < |builders| {
        MutationsMore(i);
        OneLess(i);
        ok := Mutate(i, 0);
      } else {
        ok := driver.BatchCreate(typ, specs);
      }
    }

    /** mutators[0].Mutate. */
    method Start() returns (ok: bool)
      requires Valid() && |builders| > 0 && Waiting(0)
      modifies driver`batches, specs, nodes, Mutations(0)
      ensures Batched(old(driver.batches), AllDown(typ, items, 0))
      ensures ok <==> AllDown(typ, items, 0) && Created(typ, items, driver.reply) && AllUp(items, 0)
      ensures ok ==> Settled(0)
      ensures Marked(0, AllDown(typ, items, 0))
    {
      hide AllDown, AllUp, Accepted, SavedAt, Down;
      MutationsMore(0);
      OneLess(0);
      ok := Mutate(0, 0);
    }

    /** What the marks say about every builder. */
    lemma Outcome()
      requires Valid() && Marked(0, AllDown(typ, items, 0))
      ensures forall j :: 0 <= j < |builders| ==> (builders[j].mutation.done <==> Done(typ, items, driver.reply, j))
      ensures AllDown(typ, items, 0) && Created(typ, items, driver.reply) && AllUp(items, 0) ==>
        forall j :: 0 <= j < |builders| ==> builders[j].mutation.done && SavedAt(j)
      ensures forall j :: 0 <= j < |builders| && !builders[j].mutation.done ==> builders[j].mutation.node == pointers[j]
    {
      hide SavedAt, Down, Up;
      forall j | 0 <= j < |builders|
        ensures builders[j].mutation.done <==> Done(typ, items, driver.reply, j)
        ensures AllUp(items, 0) ==> AllUp(items, j + 1)
        ensures !builders[j].mutation.done ==> builders[j].mutation.node == pointers[j]
      {
        assert builders[j].mutation in Mutations(0) && nodes[j] in nodes[..];
      }
    }

    /** Hook `k` of builder `i`, and everything below it. */
    method Mutate(i: nat, k: nat) returns (ok: bool)
      requires Valid() && i < |builders| && k <= |items[i].hooks|
      requires Edited(items[i], k) == Some(builders[i].mutation.fields)
      requires !builders[i].mutation.done && builders[i].mutation.node == pointers[i]
      requires Waiting(i + 1) && Prepared(i)
      modifies driver`batches, specs, nodes, Mutations(i)
      ensures Batched(old(driver.batches), AllDown(typ, items, i))
      ensures ok <==>
        && AllDown(typ, items, i) && Created(typ, items, driver.reply)
        && Lifted(items[i], k).Some? && AllUp(items, i + 1)
      ensures ok ==> Lifted(items[i], k) == Some(builders[i].mutation.fields) && Settled(i + 1)
      ensures Marked(i, AllDown(typ, items, i))
      ensures AllDown(typ, items, i) && Created(typ, items, driver.reply) ==> Filled(i)
      ensures forall j :: 0 <= j < i ==> nodes[j] == old(nodes[j])
      ensures forall j :: i <= j < |builders| && builders[j].mutation.done ==> fresh(nodes[j])
      decreases |builders| - i, |items[i].hooks| - k + 2
    {
      hide Accepted, SavedAt, AllUp, AllDown, BatchOf, Created, Down;
      var hooks := builders[i].hooks;
      MutationsMore(i);
      OneLess(i);
      if k == |hooks| {
        AtCore(typ, items[i], builders[i].mutation.fields);
        ok := Core(i);
        return;
      }
      var m := builders[i].mutation;
      var edited := hooks[k].before(m.fields);
      if edited.None? {
        FailedBelow(typ, items[i], k + 1);
        return false;
      }
      m.fields := edited.value;
      ok := Mutate(i, k + 1);
      if ok {
        var lifted := hooks[k].after(m.fields);
        if lifted.None? {
          return false;
        }
        m.fields := lifted.value;
      }
    }
  }

  // ---------------------------------------------------------------- Save

  /** A builder as it enters the chain, once its defaults are set. */
  ghost function ItemOf(b: Builder, now: int): Item
    reads b.mutation
  {
    Item(b.mutation.given, b.mutation.links, WithDefaults(b.mutation.typ, b.mutation.fields, now), b.hooks)
  }

  ghost function Items(builders: seq<Builder>, now: int): (r: seq<Item>)
    reads set b | b in builders :: b.mutation
    ensures |r| == |builders| && forall j :: 0 <= j < |builders| ==> r[j] == ItemOf(builders[j], now)
  {
    if builders == [] then [] else Items(builders[..|builders| - 1], now) + [ItemOf(builders[|builders| - 1], now)]
  }

  /** No two builders share a mutation. */
  ghost predicate OwnMutations(builders: seq<Builder>) {
    forall j, k :: 0 <= j < k < |builders| ==> builders[j].mutation != builders[k].mutation
  }

  /** Mutation `j` ends up done. */
  ghost predicate Done(typ: EntityType, items: seq<Item>, reply: Reply, j: nat) {
    AllDown(typ, items, 0) && Created(typ, items, reply) && AllUp(items, j + 1)
  }

  method SetDefaults(typ: EntityType, builders: seq<Builder>, now: int)
    requires OwnMutations(builders) && forall j :: 0 <= j < |builders| ==> builders[j].mutation.typ == typ
    modifies set j | 0 <= j < |builders| :: builders[j].mutation`fields
    ensures forall j :: 0 <= j < |builders| ==> builders[j].mutation.fields == old(ItemOf(builders[j], now).fields)
  {
    hide WithDefaults;
    var i := 0;
    while i < |builders|
      invariant 0 <= i <= |builders|
      invariant forall j :: 0 <= j < i ==> builders[j].mutation.fields == old(ItemOf(builders[j], now).fields)
      invariant forall j :: i <= j < |builders| ==> builders[j].mutation.fields == old(builders[j].mutation.fields)
    {
      builders[i].mutation.Defaults(now);
      i := i + 1;
    }
  }

  /** What Save leaves behind for the builders it was given. */
  ghost predicate Result(typ: EntityType, builders: seq<Builder>, items: seq<Item>, reply: Reply,
                         ok: bool, nodes: seq<Entity?>)
    requires |items| == |builders| && (reply.BatchOk? ==> |reply.ids| == |builders|)
    reads nodes, set b | b in builders :: b.mutation
  {
    && (ok <==> builders == [] || (AllDown(typ, items, 0) && Created(typ, items, reply) && AllUp(items, 0)))
    && (forall j :: 0 <= j < |builders| ==> (builders[j].mutation.done <==> Done(typ, items, reply, j)))
    && (!ok ==> nodes == [])
    && (ok ==> |nodes| == |builders| && forall j :: 0 <= j < |builders| ==>
          Returned(typ, builders[j].mutation, items[j], reply.ids[j], nodes[j]))
  }

  /** One entity was created: the struct that is returned holds the final fields and the id of the
      stored row, as far as the store reports it, and the mutation's id is the struct's own. */
  ghost predicate Returned(typ: EntityType, m: CreateMutation, item: Item, reported: Option<Value>, node: Entity?)
    reads m, node
  {
    && m.done && node != null && m.node == node && m.ID() == Some(node.id) && Lifted(item, 0) == Some(m.fields)
    && node.fields == Written(typ, Final(item)) && HasId(typ, node.id, StoredId(item.given, reported))
    && (typ == Inode ==> item.given == Some(node.id))
  }

  /** One batch at most, and exactly then when every builder is open. */
  ghost predicate OneBatch(typ: EntityType, items: seq<Item>,
                           before: seq<seq<CreateSpec>>, after: seq<seq<CreateSpec>>)
  {
    if items != [] && AllDown(typ, items, 0) then
      |after| == |before| + 1 && after[..|before|] == before && BatchOf(typ, items, after[|before|])
    else after == before
  }

  /** Creates all entities with one batch, or none. */
  method Save(typ: EntityType, builders: seq<Builder>, driver: Driver, now: int) returns (ok: bool, nodes: seq<Entity?>)
    requires IsCreatable(typ) && OwnMutations(builders)
    requires driver.reply.BatchOk? ==> |driver.reply.ids| == |builders|
    requires forall j :: 0 <= j < |builders| ==> builders[j].mutation.typ == typ && !builders[j].mutation.done
    modifies driver, set j | 0 <= j < |builders| :: builders[j].mutation
    ensures OneBatch(typ, old(Items(builders, now)), old(driver.batches), driver.batches)
    ensures Result(typ, builders, old(Items(builders, now)), driver.reply, ok, nodes)
    ensures forall j :: 0 <= j < |builders| && !builders[j].mutation.done ==>
      && builders[j].mutation.node == old(builders[j].mutation.node)
      && builders[j].mutation.ID() == old(builders[j].mutation.ID())
    ensures |driver.batches| > |old(driver.batches)| ==>
      && |driver.batches[|old(driver.batches)|]| == |builders|
      && forall j :: 0 <= j < |builders| && builders[j].hooks == [] ==>
           Completed(typ, old(builders[j].mutation.fields), now, SpecRow(driver.batches[|old(driver.batches)|][j]))
    ensures ok ==> forall j :: 0 <= j < |builders| && builders[j].hooks == [] ==>
      nodes[j] != null && Completed(typ, old(builders[j].mutation.fields), now, nodes[j].fields)
  {
    hide WithDefaults, AllDown, Result, OneBatch, Completed, Written;
    ghost var items := Items(builders, now);
    ghost var chosen := seq(|builders|, j requires 0 <= j < |builders| reads set b | b in builders :: b.mutation =>
                              builders[j].mutation.fields);
    forall j | 0 <= j < |builders| && builders[j].hooks == []
      ensures Completed(typ, chosen[j], now, Written(typ, Final(items[j])))
    {
      WrittenCompleted(typ, chosen[j], now);
    }
    SetDefaults(typ, builders, now);
    ok, nodes := RunChain(typ, builders, driver, items);
    if |driver.batches| > |old(driver.batches)| {
      SpecsCompleted(typ, builders, items, chosen, now, old(driver.batches), driver.batches);
    }
    if ok {
      ReturnedCompleted(typ, builders, items, chosen, now, driver.reply, ok, nodes);
    }
  }

  /** Without hooks, the rows of the batch are completed as the defaults say. */
  lemma SpecsCompleted(typ: EntityType, builders: seq<Builder>, items: seq<Item>, chosen: seq<Row>, now: int,
                       before: seq<seq<CreateSpec>>, after: seq<seq<CreateSpec>>)
    requires |items| == |builders| == |chosen| && OneBatch(typ, items, before, after) && |after| > |before|
    requires forall j :: 0 <= j < |builders| && builders[j].hooks == [] ==>
      Completed(typ, chosen[j], now, Written(typ, Final(items[j])))
    ensures |after[|before|]| == |builders|
    ensures forall j :: 0 <= j < |builders| && builders[j].hooks == [] ==>
      Completed(typ, chosen[j], now, SpecRow(after[|before|][j]))
  {
    hide Completed, Written, Final, AllDown, SpecRow;
    assert forall j :: 0 <= j < |items| ==> SpecOf(typ, items[j], after[|before|][j]);
  }

  lemma ReturnedCompleted(typ: EntityType, builders: seq<Builder>, items: seq<Item>, chosen: seq<Row>, now: int,
                          reply: Reply, ok: bool, nodes: seq<Entity?>)
    requires |items| == |builders| == |chosen| && (reply.BatchOk? ==> |reply.ids| == |builders|)
    requires Result(typ, builders, items, reply, ok, nodes) && ok
    requires forall j :: 0 <= j < |builders| && builders[j].hooks == [] ==>
      Completed(typ, chosen[j], now, Written(typ, Final(items[j])))
    ensures |nodes| == |builders|
    ensures forall j :: 0 <= j < |builders| && builders[j].hooks == [] ==>
      nodes[j] != null && Completed(typ, chosen[j], now, nodes[j].fields)
  {
    hide Completed, Written, Final, AllDown, Created, AllUp, Done;
  }

  method RunChain(typ: EntityType, builders: seq<Builder>, driver: Driver, ghost items: seq<Item>)
    returns (ok: bool, nodes: seq<Entity?>)
    requires IsCreatable(typ) && OwnMutations(builders) && |items| == |builders|
    requires driver.reply.BatchOk? ==> |driver.reply.ids| == |builders|
    requires forall j :: 0 <= j < |builders| ==>
      var m := builders[j].mutation;
      m.typ == typ && !m.done && Item(m.given, m.links, m.fields, builders[j].hooks) == items[j]
    modifies driver, set j | 0 <= j < |builders| :: builders[j].mutation
    ensures OneBatch(typ, items, old(driver.batches), driver.batches)
    ensures Result(typ, builders, items, driver.reply, ok, nodes)
    ensures forall j :: 0 <= j < |builders| && !builders[j].mutation.done ==>
      builders[j].mutation.node == old(builders[j].mutation.node)
  {
    hide AllDown, AllUp, BatchOf, Done, Written;
    ok, nodes := true, [];
    if |builders| > 0 {
      var chain := new Chain(typ, builders, driver, items);
      ok := chain.Start();
      chain.Outcome();
      if ok {
        nodes := chain.nodes[..];
      }
    }
  }

  /** Whenever Save returns, the mutations that are done form a suffix of the list, and a non-empty one
      only if the batch succeeded. */
  lemma DoneIsSuffix(typ: EntityType, builders: seq<Builder>, items: seq<Item>, reply: Reply,
                     ok: bool, nodes: seq<Entity?>, j: nat, k: nat)
    requires |items| == |builders| && (reply.BatchOk? ==> |reply.ids| == |builders|)
    requires Result(typ, builders, items, reply, ok, nodes)
    requires j <= k < |builders| && builders[j].mutation.done
    ensures builders[k].mutation.done && reply.BatchOk?
  {
    hide Returned, AllDown, Up;
    assert Done(typ, items, reply, j);
    assert Done(typ, items, reply, k);
  }

  /** A batch is never created if some builder fails on the way down, wherever it is in the list. */
  lemma BatchAfterChecks(typ: EntityType, items: seq<Item>, j: nat,
                         before: seq<seq<CreateSpec>>, after: seq<seq<CreateSpec>>)
    requires j < |items| && !Down(typ, items[j]) && OneBatch(typ, items, before, after)
    ensures after == before
  {
    assert !AllDown(typ, items, 0);
  }
}
