/** Mutation hooks: middleware over mutators, chains of them, and running a builder under them. */
module Hooks {
  import opened Schema
  import opened Store

  /** The primitive operations; an Op is a set of them, as the bits of an integer. */
  datatype OpBit = Create | Update | UpdateOne | Delete | DeleteOne

  type Op = set<OpBit>

  /** Op.Is. */
  predicate Is(m: Op, op: Op) {
    m == op || m * op != {}
  }

  /** The operations as the bits of an integer. */
  function Bits(op: Op): bv5 {
    (if Create in op then 1 else 0) | (if Update in op then 2 else 0) | (if UpdateOne in op then 4 else 0)
    | (if Delete in op then 8 else 0) | (if DeleteOne in op then 16 else 0)
  }

  /** And Is on those bits: the same operations, or a common one. */
  lemma IsOnBits(m: Op, op: Op)
    ensures Is(m, op) <==> Bits(m) == Bits(op) || Bits(m) & Bits(op) != 0
  {
    SameBits(m, op);
    CommonBits(m, op);
  }

  function Bit(b: OpBit): bv5 {
    match b
    case Create => 1
    case Update => 2
    case UpdateOne => 4
    case Delete => 8
    case DeleteOne => 16
  }

  lemma BitSet(op: Op, b: OpBit)
    ensures b in op <==> Bits(op) & Bit(b) != 0
    ensures b in op ==> Bits(op) != 0
  {
    match b
    case Create => assert b in op <==> Bits(op) & 1 != 0;
    case Update => assert b in op <==> Bits(op) & 2 != 0;
    case UpdateOne => assert b in op <==> Bits(op) & 4 != 0;
    case Delete => assert b in op <==> Bits(op) & 8 != 0;
    case DeleteOne => assert b in op <==> Bits(op) & 16 != 0;
  }

  lemma SameBits(m: Op, op: Op)
    ensures m == op <==> Bits(m) == Bits(op)
  {
    if Bits(m) == Bits(op) {
      forall b: OpBit ensures b in m <==> b in op {
        BitSet(m, b);
        BitSet(op, b);
      }
      assert m == op;
    }
  }

  lemma CommonBits(m: Op, op: Op)
    ensures m * op != {} <==> Bits(m) & Bits(op) != 0
  {
    var both := m * op;
    assert Bits(m) & Bits(op) == Bits(both);
    if both == {} {
      assert Bits(both) == 0;
    } else {
      var b :| b in both;
      BitSet(both, b);
    }
  }

  /** The mutation a mutator is called with, together with all else a hook may read or change. */
  datatype State = State(typ: EntityType, op: Op, fields: Row, world: nat)

  datatype HookError = Rejected(op: Op) | UnexpectedMutation | UnexpectedNode | UninitializedHook | Other(code: nat)

  /** The value a mutator returns: an entity, or the number of rows affected. */
  datatype Result = Node(typ: EntityType) | Affected(n: nat) | Error(error: HookError)

  type Mutator = State -> (State, Result)

  type Hook = Mutator -> Mutator

  type Condition = State -> bool

  // ---------------------------------------------------------------- conditional hooks

  function HasOp(op: Op): Condition {
    (s: State) => Is(s.op, op)
  }

  function Not(cond: Condition): Condition {
    (s: State) => !cond(s)
  }

  function If(hk: Hook, cond: Condition): Hook {
    (next: Mutator) => (s: State) => if cond(s) then hk(next)(s) else next(s)
  }

  function On(hk: Hook, op: Op): Hook {
    If(hk, HasOp(op))
  }

  function Unless(hk: Hook, op: Op): Hook {
    If(hk, Not(HasOp(op)))
  }

  function FixedError(error: HookError): Hook {
    (next: Mutator) => (s: State) => (s, Error(error))
  }

  function Reject(op: Op): Hook {
    On(FixedError(Rejected(op)), op)
  }

  /** And(first, second, rest...): every condition holds, asked one by one. */
  method And(first: Condition, second: Condition, rest: seq<Condition>, s: State) returns (b: bool)
    ensures b <==> first(s) && second(s) && forall k :: 0 <= k < |rest| ==> rest[k](s)
  {
    if !first(s) || !second(s) {
      return false;
    }
    for i := 0 to |rest|
      invariant forall k :: 0 <= k < i ==> rest[k](s)
    {
      if !rest[i](s) {
        return false;
      }
    }
    return true;
  }

  /** Or(first, second, rest...). */
  method Or(first: Condition, second: Condition, rest: seq<Condition>, s: State) returns (b: bool)
    ensures b <==> first(s) || second(s) || exists k :: 0 <= k < |rest| && rest[k](s)
  {
    if first(s) || second(s) {
      return true;
    }
    for i := 0 to |rest|
      invariant forall k :: 0 <= k < i ==> !rest[k](s)
    {
      if rest[i](s) {
        return true;
      }
    }
    return false;
  }

  // ---------------------------------------------------------------- chains

  /** Hooks wrapped around a mutator, the first one outermost. */
  function Fold(hooks: seq<Hook>, m: Mutator): Mutator {
    if hooks == [] then m else hooks[0](Fold(hooks[1..], m))
  }

  class Chain {
    const hooks: array<Hook>

    /** NewChain: holds a copy, so that later changes to the caller's slice do not show. */
    constructor (hooks: seq<Hook>)
      ensures fresh(this.hooks) && this.hooks[..] == hooks
    {
      this.hooks := new Hook[|hooks|](i requires 0 <= i < |hooks| => hooks[i]);
    }

    /** Chain.Hook()(mutator): wrap from the last hook to the first. */
    method Wrap(mutator: Mutator) returns (m: Mutator)
      ensures m == Fold(hooks[..], mutator)
    {
      m := mutator;
      var i := hooks.Length;
      assert hooks[hooks.Length..] == [];
      while i > 0
        invariant 0 <= i <= hooks.Length
        invariant m == Fold(hooks[i..], mutator)
      {
        i := i - 1;
        assert hooks[i..][1..] == hooks[i + 1..];
        m := hooks[i](m);
      }
      assert hooks[0..] == hooks[..];
    }

    /** Append: a new chain; this one keeps its hooks, and the two share no slice. */
    method Append(more: seq<Hook>) returns (c: Chain)
      ensures fresh(c) && fresh(c.hooks) && c.hooks[..] == hooks[..] + more
    {
      c := new Chain(hooks[..] + more);
    }

    method Extend(other: Chain) returns (c: Chain)
      ensures fresh(c) && fresh(c.hooks) && c.hooks[..] == hooks[..] + other.hooks[..]
    {
      c := Append(other.hooks[..]);
    }
  }

  /** Folding is a homomorphism: extending chains composes their hooks, so extending is associative
      in what it does as well. */
  lemma {:induction false} FoldExtends(a: seq<Hook>, b: seq<Hook>, m: Mutator)
    ensures Fold(a + b, m) == Fold(a, Fold(b, m))
  {
    if a == [] {
      assert a + b == b;
    } else {
      assert (a + b)[1..] == a[1..] + b;
      FoldExtends(a[1..], b, m);
    }
  }

  // ---------------------------------------------------------------- what On and Unless do together

  /** What the hook does to a mutation depends on the next mutator only on the same side of `op`: an
      operation that matches is passed on as one that matches, and any other as one that does not. */
  ghost predicate KeepsSide(hk: Hook, op: Op) {
    forall n: Mutator, m: Mutator, s: State :: SameOnSide(n, m, op, Is(s.op, op)) ==> hk(n)(s) == hk(m)(s)
  }

  ghost predicate SameOnSide(n: Mutator, m: Mutator, op: Op, side: bool) {
    forall t: State :: Is(t.op, op) == side ==> n(t) == m(t)
  }

  lemma OnRuns(hk: Hook, op: Op, next: Mutator, s: State)
    ensures On(hk, op)(next)(s) == if Is(s.op, op) then hk(next)(s) else next(s)
    ensures Unless(hk, op)(next)(s) == if Is(s.op, op) then next(s) else hk(next)(s)
  {
  }

  lemma IdleOnSide(hk: Hook, op: Op, next: Mutator)
    ensures SameOnSide(Unless(hk, op)(next), next, op, true)
    ensures SameOnSide(On(hk, op)(next), next, op, false)
  {
    forall t: State
      ensures Is(t.op, op) ==> Unless(hk, op)(next)(t) == next(t)
      ensures !Is(t.op, op) ==> On(hk, op)(next)(t) == next(t)
    {
      OnRuns(hk, op, next, t);
    }
  }

  /** On(h, op) and Unless(h, op) invoke h for exactly one of the two: one after the other, in either
      order, they run a hook that keeps the side of `op` exactly once, whatever the mutation. */
  lemma OnUnlessOnce(hk: Hook, op: Op, next: Mutator, s: State)
    requires KeepsSide(hk, op)
    ensures Fold([On(hk, op), Unless(hk, op)], next)(s) == hk(next)(s)
    ensures Fold([Unless(hk, op), On(hk, op)], next)(s) == hk(next)(s)
  {
    hide On, Unless, Fold, Is, SameOnSide;
    FoldTwo(On(hk, op), Unless(hk, op), next);
    FoldTwo(Unless(hk, op), On(hk, op), next);
    OnRuns(hk, op, Unless(hk, op)(next), s);
    OnRuns(hk, op, On(hk, op)(next), s);
    OnRuns(hk, op, next, s);
    IdleOnSide(hk, op, next);
  }

  /** A hook that changes the mutation, calls on once, and then changes what came back. */
  function Around(f: State -> State, g: ((State, Result)) -> (State, Result)): Hook {
    (next: Mutator) => (s: State) => g(next(f(s)))
  }

  ghost predicate Idempotent(g: ((State, Result)) -> (State, Result)) {
    forall x: (State, Result) :: g(g(x)) == g(x)
  }

  ghost predicate Constant(g: ((State, Result)) -> (State, Result)) {
    forall x: (State, Result), y: (State, Result) :: g(x) == g(y)
  }

  /** Running the hook a second time on the way shows in no result. */
  ghost predicate RunsTwiceUnseen(f: State -> State, g: ((State, Result)) -> (State, Result), s: State) {
    (f(f(s)) == f(s) && Idempotent(g)) || Constant(g)
  }

  /** Exactly when the two in a row are the hook itself, for every mutator behind them: the hook must
      not move a matching mutation to the other side of `op` (for the other order: a mutation that
      does not match), unless running it twice cannot be told from running it once. */
  lemma OnUnlessExactly(f: State -> State, g: ((State, Result)) -> (State, Result), op: Op, s: State)
    ensures (forall next: Mutator ::
               Fold([On(Around(f, g), op), Unless(Around(f, g), op)], next)(s) == Around(f, g)(next)(s))
            <==> (Is(s.op, op) && !Is(f(s).op, op) ==> RunsTwiceUnseen(f, g, s))
    ensures (forall next: Mutator ::
               Fold([Unless(Around(f, g), op), On(Around(f, g), op)], next)(s) == Around(f, g)(next)(s))
            <==> (!Is(s.op, op) && Is(f(s).op, op) ==> RunsTwiceUnseen(f, g, s))
  {
    hide Fold, On, Unless, Is, Around, RunsTwiceUnseen;
    forall next: Mutator
      ensures Fold([On(Around(f, g), op), Unless(Around(f, g), op)], next)(s)
              == if Is(s.op, op) && !Is(f(s).op, op) then g(g(next(f(f(s))))) else g(next(f(s)))
      ensures Fold([Unless(Around(f, g), op), On(Around(f, g), op)], next)(s)
              == if !Is(s.op, op) && Is(f(s).op, op) then g(g(next(f(f(s))))) else g(next(f(s)))
      ensures Around(f, g)(next)(s) == g(next(f(s)))
    {
      OnUnlessResult(f, g, op, next, s);
      AroundRuns(f, g, next, s);
    }
    TwiceUnseen(f, g, s);
  }

  lemma AroundRuns(f: State -> State, g: ((State, Result)) -> (State, Result), next: Mutator, s: State)
    ensures Around(f, g)(next)(s) == g(next(f(s)))
  {
  }

  /** What the two in a row return: the hook runs once, or twice if its own change is what makes the
      other of the two run it. */
  lemma OnUnlessResult(f: State -> State, g: ((State, Result)) -> (State, Result), op: Op, next: Mutator, s: State)
    ensures Fold([On(Around(f, g), op), Unless(Around(f, g), op)], next)(s)
            == if Is(s.op, op) && !Is(f(s).op, op) then g(g(next(f(f(s))))) else g(next(f(s)))
    ensures Fold([Unless(Around(f, g), op), On(Around(f, g), op)], next)(s)
            == if !Is(s.op, op) && Is(f(s).op, op) then g(g(next(f(f(s))))) else g(next(f(s)))
  {
    hide Fold, On, Unless, Is, Around;
    var hk := Around(f, g);
    var on, un := On(hk, op), Unless(hk, op);
    FoldTwo(on, un, next);
    FoldTwo(un, on, next);
    OnRuns(hk, op, un(next), s);
    OnRuns(hk, op, on(next), s);
    OnRuns(hk, op, next, s);
    OnRuns(hk, op, next, f(s));
    AroundRuns(f, g, un(next), s);
    AroundRuns(f, g, on(next), s);
    AroundRuns(f, g, next, s);
    AroundRuns(f, g, next, f(s));
  }

  /** Calling g twice around f twice is calling both once, for every mutator between them. */
  lemma TwiceUnseen(f: State -> State, g: ((State, Result)) -> (State, Result), s: State)
    ensures (forall next: Mutator :: g(g(next(f(f(s))))) == g(next(f(s)))) <==> RunsTwiceUnseen(f, g, s)
  {
    if forall next: Mutator :: g(g(next(f(f(s))))) == g(next(f(s))) {
      if f(f(s)) == f(s) {
        forall x: (State, Result) ensures g(g(x)) == g(x) {
          var next: Mutator := (t: State) => x;
          assert g(g(next(f(f(s))))) == g(next(f(s)));
        }
      } else {
        forall x: (State, Result), y: (State, Result) ensures g(x) == g(y) {
          var left: Mutator := (t: State) => x;
          var right: Mutator := (t: State) => if t == f(s) then y else x;
          assert g(g(left(f(f(s))))) == g(left(f(s)));
          assert g(g(right(f(f(s))))) == g(right(f(s)));
        }
      }
    }
  }

  /** A hook that turns a creation into an update on its way down, and counts its calls. */
  function Upsert(): Hook {
    Around(CountAsUpdate, Unchanged)
  }

  function CountAsUpdate(s: State): State {
    s.(op := {Update}, world := s.world + 1)
  }

  function Unchanged(r: (State, Result)): (State, Result) {
    r
  }

  /** Such a hook is run by both On(h, Create) and Unless(h, Create), and it shows. */
  lemma OpChangedRunsTwice(typ: EntityType, fields: Row)
    ensures var next: Mutator := (s: State) => (s, Affected(0));
            var s := State(typ, {Create}, fields, 0);
            Fold([On(Upsert(), {Create}), Unless(Upsert(), {Create})], next)(s).0.world == 2
    ensures !forall next: Mutator ::
      Fold([On(Upsert(), {Create}), Unless(Upsert(), {Create})], next)(State(typ, {Create}, fields, 0))
      == Upsert()(next)(State(typ, {Create}, fields, 0))
  {
    hide Fold, On, Unless, Is, Around;
    var next: Mutator := (s: State) => (s, Affected(0));
    var s := State(typ, {Create}, fields, 0);
    var t := State(typ, {Update}, fields, 1);
    var un := Unless(Upsert(), {Create})(next);
    FoldTwo(On(Upsert(), {Create}), Unless(Upsert(), {Create}), next);
    OnRuns(Upsert(), {Create}, un, s);
    OnRuns(Upsert(), {Create}, next, t);
    CreateIsNotUpdate();
    AroundRuns(CountAsUpdate, Unchanged, un, s);
    AroundRuns(CountAsUpdate, Unchanged, next, t);
    assert Unchanged((s, Affected(0))) != Unchanged((s, Affected(1)));
    OnUnlessExactly(CountAsUpdate, Unchanged, {Create}, s);
  }

  lemma CreateIsNotUpdate()
    ensures Is({Create}, {Create}) && !Is({Update}, {Create})
  {
    assert Create in {Create} && Create !in {Update};
  }

  lemma FoldTwo(a: Hook, b: Hook, m: Mutator)
    ensures Fold([a, b], m) == a(b(m))
  {
    assert [a, b][1..] == [b] && [b][1..] == [];
    assert Fold([b], m) == b(Fold([], m));
  }

  /** A rejected operation reaches none of the hooks behind, and not the mutator; any other passes
      through unchanged. */
  lemma RejectStops(op: Op, hooks: seq<Hook>, m: Mutator, s: State)
    ensures Fold([Reject(op)] + hooks, m)(s)
            == if Is(s.op, op) then (s, Error(Rejected(op))) else Fold(hooks, m)(s)
  {
    assert ([Reject(op)] + hooks)[1..] == hooks;
  }

  // ---------------------------------------------------------------- withHooks

  /** The innermost mutator: the mutation must be of the builder's own type. */
  function Base(typ: EntityType, exec: Mutator): Mutator {
    (s: State) => if s.typ != typ then (s, Error(UnexpectedMutation)) else exec(s)
  }

  /** A builder runs under its hooks and expects a value of its own kind back. */
  function Checked(r: (State, Result), isNode: Result -> bool): (State, Result) {
    if r.1.Error? || isNode(r.1) then r else (r.0, Error(UnexpectedNode))
  }

  predicate AllSet(hooks: seq<Option<Hook>>) {
    forall i :: 0 <= i < |hooks| ==> hooks[i].Some?
  }

  function Values(hooks: seq<Option<Hook>>): seq<Hook>
    requires AllSet(hooks)
  {
    seq(|hooks|, i requires 0 <= i < |hooks| => hooks[i].value)
  }

  /** What a builder returns under its hooks. */
  function Outcome(typ: EntityType, exec: Mutator, isNode: Result -> bool, s: State, hooks: seq<Option<Hook>>)
    : (State, Result)
  {
    if hooks == [] then exec(s)
    else if !AllSet(hooks) then (s, Error(UninitializedHook))
    else Checked(Fold(Values(hooks), Base(typ, exec))(s), isNode)
  }

  /** The hooks lead a mutation on to what is behind them, as `u`, and add nothing on the way back. */
  ghost predicate Leads(hooks: seq<Hook>, s: State, u: State) {
    forall next: Mutator :: Fold(hooks, next)(s) == next(u)
  }

  /** The operation is run for mutations of the builder's own type, and for no others: when hooks lead a
      mutation on, it is executed if its type is right by then, and otherwise refused. */
  lemma ReachesOperation(typ: EntityType, exec: Mutator, isNode: Result -> bool, s: State, hooks: seq<Option<Hook>>,
                         u: State)
    requires hooks != [] && AllSet(hooks) && Leads(Values(hooks), s, u)
    ensures u.typ == typ && (exec(u).1.Error? || isNode(exec(u).1)) ==> Outcome(typ, exec, isNode, s, hooks) == exec(u)
    ensures u.typ == typ && !exec(u).1.Error? && !isNode(exec(u).1) ==>
      Outcome(typ, exec, isNode, s, hooks) == (exec(u).0, Error(UnexpectedNode))
    ensures u.typ != typ ==> Outcome(typ, exec, isNode, s, hooks) == (u, Error(UnexpectedMutation))
  {
    var base := Base(typ, exec);
    assert Fold(Values(hooks), base)(s) == base(u);
  }

  /** A hook that only calls on is no hook. */
  lemma PassThrough(typ: EntityType, exec: Mutator, isNode: Result -> bool, s: State)
    requires s.typ == typ && (exec(s).1.Error? || isNode(exec(s).1))
    ensures Outcome(typ, exec, isNode, s, [Some((next: Mutator) => next)]) == Outcome(typ, exec, isNode, s, [])
  {
    var id: Hook := (next: Mutator) => next;
    var hooks := [Some(id)];
    assert Values(hooks) == [id];
    forall next: Mutator ensures Fold([id], next)(s) == next(s) {
      assert [id][1..] == [] && Fold([], next) == next;
    }
    ReachesOperation(typ, exec, isNode, s, hooks, s);
  }

  /** Two mutators do the same with mutations of a type. */
  ghost predicate SameOn(typ: EntityType, n: Mutator, m: Mutator) {
    forall u: State :: u.typ == typ ==> n(u) == m(u)
  }

  /** The hook passes mutations of a type on as mutations of that type. */
  ghost predicate KeepsType(hk: Hook, typ: EntityType) {
    forall n: Mutator, m: Mutator :: SameOn(typ, n, m) ==> SameOn(typ, hk(n), hk(m))
  }

  lemma {:induction false} FoldSameOn(typ: EntityType, hooks: seq<Hook>, n: Mutator, m: Mutator)
    requires SameOn(typ, n, m) && forall i :: 0 <= i < |hooks| ==> KeepsType(hooks[i], typ)
    ensures SameOn(typ, Fold(hooks, n), Fold(hooks, m))
  {
    hide SameOn;
    if hooks == [] {
    } else {
      FoldSameOn(typ, hooks[1..], n, m);
      assert KeepsType(hooks[0], typ);
    }
  }

  /** Under hooks that keep the type of a mutation the check of the type is never in the way. */
  lemma TypeKept(typ: EntityType, exec: Mutator, isNode: Result -> bool, s: State, hooks: seq<Option<Hook>>)
    requires hooks != [] && AllSet(hooks) && s.typ == typ
    requires forall i :: 0 <= i < |hooks| ==> KeepsType(hooks[i].value, typ)
    ensures Outcome(typ, exec, isNode, s, hooks) == Checked(Fold(Values(hooks), exec)(s), isNode)
  {
    hide Fold, KeepsType;
    FoldSameOn(typ, Values(hooks), Base(typ, exec), exec);
  }

  /** Mutators that agree everywhere are the same to a hook. */
  ghost predicate Extensional(hk: Hook) {
    forall n: Mutator, m: Mutator :: SameEverywhere(n, m) ==> SameEverywhere(hk(n), hk(m))
  }

  ghost predicate SameEverywhere(n: Mutator, m: Mutator) {
    forall u: State :: n(u) == m(u)
  }

  lemma {:induction false} FoldSame(hooks: seq<Hook>, n: Mutator, m: Mutator)
    requires SameEverywhere(n, m) && forall i :: 0 <= i < |hooks| ==> Extensional(hooks[i])
    ensures SameEverywhere(Fold(hooks, n), Fold(hooks, m))
  {
    hide SameEverywhere;
    if hooks == [] {
    } else {
      FoldSame(hooks[1..], n, m);
      assert Extensional(hooks[0]);
    }
  }

  /** What the operation would do with mutations of other types does not matter, whatever the hooks do. */
  lemma OnlyOwnType(typ: EntityType, one: Mutator, two: Mutator, isNode: Result -> bool, s: State,
                    hooks: seq<Option<Hook>>)
    requires hooks != [] && SameOn(typ, one, two)
    requires forall i :: 0 <= i < |hooks| && hooks[i].Some? ==> Extensional(hooks[i].value)
    ensures Outcome(typ, one, isNode, s, hooks) == Outcome(typ, two, isNode, s, hooks)
  {
    hide Fold, Extensional;
    if AllSet(hooks) {
      assert SameEverywhere(Base(typ, one), Base(typ, two));
      FoldSame(Values(hooks), Base(typ, one), Base(typ, two));
    }
  }

  /** withHooks: the same fold as a chain of the same hooks; without hooks the operation itself, and
      with an uninitialized hook anywhere nothing at all is run. */
  method WithHooks(typ: EntityType, exec: Mutator, isNode: Result -> bool, s: State, hooks: seq<Option<Hook>>)
    returns (t: State, r: Result)
    ensures (t, r) == Outcome(typ, exec, isNode, s, hooks)
    ensures hooks == [] ==> (t, r) == exec(s)
    ensures !AllSet(hooks) ==> (t, r) == (s, Error(UninitializedHook))
    ensures hooks != [] && AllSet(hooks) ==> (t, r) == Checked(Fold(Values(hooks), Base(typ, exec))(s), isNode)
  {
    if |hooks| == 0 {
      var out := exec(s);
      return out.0, out.1;
    }
    var mut := Base(typ, exec);
    var i := |hooks|;
    while i > 0
      invariant 0 <= i <= |hooks| && AllSet(hooks[i..])
      invariant mut == Fold(Values(hooks[i..]), Base(typ, exec))
    {
      i := i - 1;
      if hooks[i].None? {
        return s, Error(UninitializedHook);
      }
      assert hooks[i..] == [hooks[i]] + hooks[i + 1..];
      assert Values(hooks[i..])[1..] == Values(hooks[i + 1..]);
      mut := hooks[i].value(mut);
    }
    assert hooks[0..] == hooks;
    var out := mut(s);
    if !out.1.Error? && !isNode(out.1) {
      return out.0, Error(UnexpectedNode);
    }
    return out.0, out.1;
  }
}
