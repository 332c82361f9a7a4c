/** The query builders: mutable objects that own the builders of the edges they request. */
module Builder {
  import opened Schema
  import opened Store

  /** A call on a builder. */
  datatype Edit =
    | AddWhere(ps: seq<Clause>)
    | AddOrder(cols: seq<Column>)
    | AddFields(cols: seq<Column>)
    | SetLimit(n: nat)
    | SetOffset(n: nat)
    | AddWith(e: Edge)

  /** The value of a new builder. */
  function EmptyPlan(typ: EntityType): Plan {
    Plan(typ, [], [], [], None, None, map[])
  }

  function Edited(t: Plan, edit: Edit): Plan {
    match edit
    case AddWhere(ps) => t.(preds := t.preds + ps)
    case AddOrder(cols) => t.(order := t.order + cols)
    case AddFields(cols) => t.(fields := t.fields + cols)
    case SetLimit(n) => t.(limit := Some(n))
    case SetOffset(n) => t.(offset := Some(n))
    case AddWith(e) => t.(withs := t.withs[e := EmptyPlan(e.Target())])
  }

  /** The call made on the builder found by following `path` through the requested edges. */
  function EditedAt(t: Plan, path: seq<Edge>, edit: Edit): Plan
    decreases path
  {
    if path == [] then Edited(t, edit)
    else if path[0] in t.withs then t.(withs := t.withs[path[0] := EditedAt(t.withs[path[0]], path[1..], edit)])
    else t
  }

  function EditedAll(t: Plan, edits: seq<(seq<Edge>, Edit)>): Plan {
    if edits == [] then t
    else
      var last := edits[|edits| - 1];
      EditedAt(EditedAll(t, edits[..|edits| - 1]), last.0, last.1)
  }

  /** The builder's value found by following `path`, if there is one. */
  function PlanAt(t: Plan, path: seq<Edge>): Option<Plan>
    decreases path
  {
    if path == [] then Some(t)
    else if path[0] in t.withs then PlanAt(t.withs[path[0]], path[1..])
    else None
  }

  /** The settings of a value: all but its edges. */
  function Settings(t: Plan): Plan {
    t.(withs := map[])
  }

  /** A call changes the value at its path as it would change it anywhere, and nothing if there is none. */
  lemma {:induction false} EditedThere(t: Plan, path: seq<Edge>, edit: Edit)
    ensures PlanAt(t, path).Some? ==> PlanAt(EditedAt(t, path, edit), path) == Some(Edited(PlanAt(t, path).value, edit))
    ensures PlanAt(t, path).None? ==> EditedAt(t, path, edit) == t
    decreases path
  {
    if path == [] {
    } else if path[0] in t.withs {
      EditedThere(t.withs[path[0]], path[1..], edit);
      if PlanAt(t, path).None? {
        assert t.withs[path[0] := t.withs[path[0]]] == t.withs;
      }
    }
  }

  lemma PrefixTail(path: seq<Edge>, other: seq<Edge>)
    requires path != [] && other != [] && path[0] == other[0]
    ensures path <= other <==> path[1..] <= other[1..]
  {
    assert path == [path[0]] + path[1..] && other == [other[0]] + other[1..];
  }

  /** Everywhere else, all settings stay, and no builder comes or goes but below that place. */
  lemma {:induction false} EditedElsewhere(t: Plan, path: seq<Edge>, edit: Edit, other: seq<Edge>)
    requires !(path <= other)
    ensures PlanAt(EditedAt(t, path, edit), other).Some? <==> PlanAt(t, other).Some?
    ensures PlanAt(t, other).Some? ==>
      && Settings(PlanAt(EditedAt(t, path, edit), other).value) == Settings(PlanAt(t, other).value)
      && PlanAt(EditedAt(t, path, edit), other).value.withs.Keys == PlanAt(t, other).value.withs.Keys
    decreases path
  {
    if path == [] {
    } else if other == [] {
    } else if path[0] in t.withs && other[0] == path[0] {
      PrefixTail(path, other);
      EditedElsewhere(t.withs[path[0]], path[1..], edit, other[1..]);
    }
  }

  /** What each call does to the builder it is made on. */
  lemma EditsAre(t: Plan, ps: seq<Clause>, cols: seq<Column>, n: nat, e: Edge)
    ensures Edited(t, AddWhere(ps)) == Plan(t.typ, t.fields, t.preds + ps, t.order, t.limit, t.offset, t.withs)
    ensures Edited(t, AddOrder(cols)) == Plan(t.typ, t.fields, t.preds, t.order + cols, t.limit, t.offset, t.withs)
    ensures Edited(t, AddFields(cols)) == Plan(t.typ, t.fields + cols, t.preds, t.order, t.limit, t.offset, t.withs)
    ensures Edited(t, SetLimit(n)) == Plan(t.typ, t.fields, t.preds, t.order, Some(n), t.offset, t.withs)
    ensures Edited(t, SetOffset(n)) == Plan(t.typ, t.fields, t.preds, t.order, t.limit, Some(n), t.withs)
    ensures Edited(t, AddWith(e))
            == Plan(t.typ, t.fields, t.preds, t.order, t.limit, t.offset,
                    t.withs[e := Plan(e.Target(), [], [], [], None, None, map[])])
  {
  }

  class Query {
    const typ: EntityType
    const prev: Query?      // the builder this one was chained from by QueryX: its path
    const via: Edge         // the edge it was chained over
    ghost const rank: nat   // chained builders are younger than the ones they were chained from
    var fields: seq<Column>
    var preds: seq<Clause>
    var order: seq<Column>
    var limit: Option<nat>
    var offset: Option<nat>
    var withs: map<Edge, Query>
    ghost var Repr: set<Query>
    ghost var tree: Plan  // the value this builder holds

    /** The path leads from builder to older builder, over edges of their entities. */
    ghost predicate Linked()
      decreases rank
    {
      prev != null ==> prev.rank < rank && via.Owner() == prev.typ && via.Target() == typ && prev.Linked()
    }

    /** This builder and the ones on its path. */
    ghost function Chain(): set<Query>
      requires Linked()
      decreases rank
    {
      {this} + if prev == null then {} else prev.Chain()
    }

    /** Builders form a tree: an edge builder is owned by exactly one parent, and has no path. */
    ghost predicate Valid()
      reads this, Repr
      decreases Repr, 1
      ensures Valid() ==> this in Repr
    {
      && this in Repr && Linked()
      && tree.typ == typ && tree.fields == fields && tree.preds == preds && tree.order == order
      && tree.limit == limit && tree.offset == offset && tree.withs.Keys == withs.Keys
      && (forall e :: e in withs ==> Owns(e))
      && (forall e, f :: e in withs && f in withs && e != f ==> withs[e].Repr !! withs[f].Repr)
    }

    /** The builder of one edge, with its value. */
    ghost predicate Owns(e: Edge)
      requires this in Repr && e in withs && tree.withs.Keys == withs.Keys
      reads this, Repr
      decreases Repr, 0
    {
      && withs[e] in Repr && withs[e].Repr <= Repr && this !in withs[e].Repr
      && withs[e].tree == tree.withs[e] && withs[e].prev == null
      && withs[e].Valid()
    }

    /** Client.X.Query(). */
    constructor (typ: EntityType)
      ensures Valid() && fresh(Repr)
      ensures tree == EmptyPlan(typ) && this.typ == typ && prev == null
    {
      this.typ, prev, rank := typ, null, 0;
      fields, preds, order, limit, offset := [], [], [], None, None;
      withs, Repr := map[], {this};
      tree := EmptyPlan(typ);
    }

    /** QueryX: a new builder whose path is this edge of `prev`. */
    constructor Chained(prev: Query, via: Edge)
      requires prev.Linked() && via.Owner() == prev.typ
      ensures Valid() && fresh(Repr)
      ensures tree == EmptyPlan(via.Target()) && this.prev == prev && this.via == via
    {
      this.typ, this.prev, this.via, rank := via.Target(), prev, via, prev.rank + 1;
      fields, preds, order, limit, offset := [], [], [], None, None;
      withs, Repr := map[], {this};
      tree := EmptyPlan(via.Target());
    }

    /** A new builder with the path of `q`. */
    constructor Like(q: Query)
      requires q.Linked()
      ensures Valid() && fresh(Repr)
      ensures tree == EmptyPlan(q.typ) && typ == q.typ && prev == q.prev && via == q.via && rank == q.rank
    {
      typ, prev, via, rank := q.typ, q.prev, q.via, q.rank;
      fields, preds, order, limit, offset := [], [], [], None, None;
      withs, Repr := map[], {this};
      tree := EmptyPlan(q.typ);
    }

    method Where(ps: seq<Clause>)
      requires Valid()
      modifies this`preds, this`tree
      ensures Valid() && tree == old(tree).(preds := old(tree).preds + ps)
    {
      preds := preds + ps;
      tree := tree.(preds := preds);
    }

    method Order(cols: seq<Column>)
      requires Valid()
      modifies this`order, this`tree
      ensures Valid() && tree == old(tree).(order := old(tree).order + cols)
    {
      order := order + cols;
      tree := tree.(order := order);
    }

    method Select(cols: seq<Column>)
      requires Valid()
      modifies this`fields, this`tree
      ensures Valid() && tree == old(tree).(fields := old(tree).fields + cols)
    {
      fields := fields + cols;
      tree := tree.(fields := fields);
    }

    method AppendFieldOnce(col: Column)
      requires Valid()
      modifies this`fields, this`tree
      ensures Valid()
      ensures tree == old(tree).(fields := if col in old(fields) then old(fields) else old(fields) + [col])
    {
      if col !in fields {
        fields := fields + [col];
      }
      tree := tree.(fields := fields);
    }

    method Limit(n: nat)
      requires Valid()
      modifies this`limit, this`tree
      ensures Valid() && tree == old(tree).(limit := Some(n))
    {
      limit := Some(n);
      tree := tree.(limit := limit);
    }

    method Offset(n: nat)
      requires Valid()
      modifies this`offset, this`tree
      ensures Valid() && tree == old(tree).(offset := Some(n))
    {
      offset := Some(n);
      tree := tree.(offset := offset);
    }

    /** A valid builder becomes, or still is, the builder of an edge. */
    twostate lemma OwnsChild(new e: Edge, child: Query)
      requires old(child.Valid() && this !in child.Repr && child.prev == null) && unchanged(old(child.Repr))
      requires this in Repr && e in withs && withs[e] == child && child.Repr <= Repr
      requires tree.withs.Keys == withs.Keys && tree.withs[e] == child.tree
      ensures Owns(e) && child.Repr == old(child.Repr)
    {
    }

    /** Enlarging a builder leaves its other children alone. */
    twostate lemma StillOwns(f: Edge)
      requires old(this in Repr && f in withs && tree.withs.Keys == withs.Keys) && old(Owns(f))
      requires f in withs && withs[f] == old(withs[f]) && unchanged(old(Repr) - {this})
      requires old(Repr) <= Repr && tree.withs.Keys == withs.Keys && tree.withs[f] == old(tree.withs[f])
      ensures Owns(f) && withs[f].Repr == old(withs[f].Repr) <= old(Repr)
    {
    }

    /** WithX: a new builder, already configured by the caller's options, becomes the edge's query. */
    method With(e: Edge, query: Query)
      requires Valid() && query.Valid() && Repr !! query.Repr && query.prev == null
      modifies this
      ensures Valid() && Repr == old(Repr) + query.Repr
      ensures tree == old(tree).(withs := old(tree).withs[e := old(query.tree)])
    {
      hide Owns, Linked;
      withs := withs[e := query];
      Repr := Repr + query.Repr;
      tree := tree.(withs := tree.withs[e := query.tree]);
      OwnsChild(e, query);
      forall f | f in withs && f != e ensures Owns(f) && withs[f].Repr == old(withs[f].Repr) <= old(Repr) {
        StillOwns(f);
      }
      forall f, g | f in withs && g in withs && f != g ensures withs[f].Repr !! withs[g].Repr {
        assert f != e ==> withs[f].Repr == old(withs[f].Repr) <= old(Repr);
        assert g != e ==> withs[g].Repr == old(withs[g].Repr) <= old(Repr);
      }
    }

    /** A builder none of whose objects changed is still valid. */
    twostate lemma Unchanged()
      requires old(Valid()) && unchanged(this) && unchanged(old(Repr))
      ensures Valid() == old(Valid())
    {
    }

    /** Clone: a structurally equal tree of new objects. Only the path is shared. */
    method Clone() returns (c: Query)
      requires Valid()
      ensures c.Valid() && fresh(c.Repr)
      ensures c.tree == tree && c.prev == prev && c.via == via
      decreases Repr, 2
    {
      c := new Query.Like(this);
      c.fields, c.preds, c.order, c.limit, c.offset := fields, preds, order, limit, offset;
      c.tree := tree.(withs := map[]);
      Unchanged();
      CloneEdges(c);
    }

    method CloneEdges(c: Query)
      requires Valid() && c.Valid() && Repr !! c.Repr
      requires c.tree == tree.(withs := map[])
      modifies c
      ensures c.Valid() && fresh(c.Repr - old(c.Repr))
      ensures c.tree == tree
      decreases Repr, 1
    {
      var todo := withs.Keys;
      while todo != {}
        invariant todo <= withs.Keys
        invariant c.Valid() && fresh(c.Repr - old(c.Repr))
        invariant c.tree == tree.(withs := tree.withs - todo)
        decreases todo
      {
        var e :| e in todo;
        Unchanged();
        CloneEdge(e, c);
        PutBack(tree.withs, todo, e);
        todo := todo - {e};
      }
      assert tree.withs - {} == tree.withs;
    }

    method CloneEdge(e: Edge, c: Query)
      requires Valid() && e in withs
      requires c.Valid() && Repr !! c.Repr
      modifies c
      ensures c.Valid() && fresh(c.Repr - old(c.Repr))
      ensures c.tree == old(c.tree).(withs := old(c.tree).withs[e := tree.withs[e]])
      decreases Repr, 0
    {
      var child := withs[e].Clone();
      c.With(e, child);
    }

    /** Any call on this builder. */
    method Apply(edit: Edit)
      requires Valid()
      modifies this
      ensures Valid() && fresh(Repr - old(Repr)) && tree == Edited(old(tree), edit)
    {
      match edit {
        case AddWhere(ps) => Where(ps);
        case AddOrder(cols) => Order(cols);
        case AddFields(cols) => Select(cols);
        case SetLimit(n) => Limit(n);
        case SetOffset(n) => Offset(n);
        case AddWith(e) =>
          var query := new Query(e.Target());
          Unchanged();
          With(e, query);
      }
    }

    /** Any call on a builder at any depth below this one. */
    method ApplyAt(path: seq<Edge>, edit: Edit)
      requires Valid()
      modifies Repr
      ensures Valid() && fresh(Repr - old(Repr)) && tree == EditedAt(old(tree), path, edit)
      decreases path
    {
      if path == [] {
        Apply(edit);
      } else if path[0] in withs {
        var child := withs[path[0]];
        child.ApplyAt(path[1..], edit);
        Adopt(path[0]);
      }
    }

    /** A builder whose child changed in place. */
    ghost method Adopt(e: Edge)
      requires e in withs && withs[e].Valid() && this !in withs[e].Repr && withs[e].prev == null
      requires this in Repr && Linked() && tree.withs.Keys == withs.Keys
      requires tree.typ == typ && tree.fields == fields && tree.preds == preds && tree.order == order
      requires tree.limit == limit && tree.offset == offset
      requires forall f :: f in withs && f != e ==> Owns(f)
      requires forall f, g :: f in withs && g in withs && f != g ==> withs[f].Repr !! withs[g].Repr
      modifies this`Repr, this`tree
      ensures Valid() && Repr == old(Repr) + withs[e].Repr
      ensures tree == old(tree).(withs := old(tree).withs[e := withs[e].tree])
    {
      hide Owns, Linked;
      Repr := Repr + withs[e].Repr;
      tree := tree.(withs := tree.withs[e := withs[e].tree]);
      OwnsChild(e, withs[e]);
      forall f | f in withs && f != e ensures Owns(f) && withs[f].Repr == old(withs[f].Repr) {
        StillOwns(f);
      }
      forall f, g | f in withs && g in withs && f != g ensures withs[f].Repr !! withs[g].Repr {
        assert withs[f].Repr == old(withs[f].Repr) && withs[g].Repr == old(withs[g].Repr);
      }
    }
  }

  // ---------------------------------------------------------------- clones

  /** Any calls at all on a builder, at any depth. */
  method ApplyAll(q: Query, edits: seq<(seq<Edge>, Edit)>)
    requires q.Valid()
    modifies q.Repr
    ensures q.Valid() && fresh(q.Repr - old(q.Repr)) && q.tree == EditedAll(old(q.tree), edits)
  {
    for i := 0 to |edits|
      invariant q.Valid() && fresh(q.Repr - old(q.Repr)) && q.tree == EditedAll(old(q.tree), edits[..i])
    {
      assert edits[..i + 1][..i] == edits[..i];
      q.ApplyAt(edits[i].0, edits[i].1);
    }
    assert edits[..|edits|] == edits;
  }

  /** Clone independence: whatever is done to a clone afterwards, at any depth, changes no object of
      the original. */
  method EditClone(q: Query, edits: seq<(seq<Edge>, Edit)>) returns (c: Query)
    requires q.Valid()
    ensures c.Valid() && fresh(c.Repr) && c.tree == EditedAll(q.tree, edits)
    ensures unchanged(q) && unchanged(q.Repr) && q.Valid()
  {
    c := q.Clone();
    ApplyAll(c, edits);
    q.Unchanged();
  }

  /** And the other way around: whatever is done to the original, the clone keeps its value. */
  method CloneThenEdit(q: Query, edits: seq<(seq<Edge>, Edit)>) returns (c: Query)
    requires q.Valid()
    modifies q.Repr
    ensures q.Valid() && q.tree == EditedAll(old(q.tree), edits)
    ensures c.Valid() && fresh(c.Repr) && c.tree == old(q.tree) && c.Repr !! q.Repr
  {
    c := q.Clone();
    label Cloned:
    q.Unchanged();
    ApplyAll(q, edits);
    c.Unchanged@Cloned();
  }

  lemma PutBack<K, V>(m: map<K, V>, todo: set<K>, k: K)
    requires k in todo && k in m
    ensures m - (todo - {k}) == (m - todo)[k := m[k]]
  {
  }
}
