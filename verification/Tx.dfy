/** Transactions: the driver that hides the end of a transaction from the builders, and the hooks
    around the one that really ends it. */
module Tx {
  type Stmt = string

  /** The database's own transaction: a log of statements, and how often it was told to end. Ending
      it may fail, differently each time. */
  class Underlying {
    const refuses: nat -> bool
    var ends: nat
    ghost var log: seq<Stmt>
    ghost var commits: nat
    ghost var rollbacks: nat

    constructor (refuses: nat -> bool)
      ensures this.refuses == refuses && ends == 0 && log == [] && commits == 0 && rollbacks == 0
    {
      this.refuses, ends, log, commits, rollbacks := refuses, 0, [], 0, 0;
    }

    method Exec(stmt: Stmt)
      modifies this`log
      ensures log == old(log) + [stmt]
    {
      log := log + [stmt];
    }

    method Commit() returns (failed: bool)
      modifies this`commits, this`ends
      ensures commits == old(commits) + 1 && ends == old(ends) + 1 && failed == refuses(old(ends))
    {
      failed := refuses(ends);
      commits, ends := commits + 1, ends + 1;
    }

    method Rollback() returns (failed: bool)
      modifies this`rollbacks, this`ends
      ensures rollbacks == old(rollbacks) + 1 && ends == old(ends) + 1 && failed == refuses(old(ends))
    {
      failed := refuses(ends);
      rollbacks, ends := rollbacks + 1, ends + 1;
    }
  }

  /** What a commit or rollback hook does: it executes statements in the transaction, registers more
      hooks, and calls the next function some number of times. Whether it returns an error is its own
      decision, once it knows which of those calls failed. */
  datatype EndHook = EndHook(stmts: seq<Stmt>, registers: seq<EndHook>, calls: nat, fails: seq<bool> -> bool)

  /** txDriver: the driver handed to the builders of a transactional client. */
  class TxDriver {
    const tx: Underlying
    var onCommit: seq<EndHook>
    var onRollback: seq<EndHook>

    constructor (tx: Underlying)
      ensures this.tx == tx && onCommit == [] && onRollback == []
    {
      this.tx, onCommit, onRollback := tx, [], [];
    }

    /** A builder that begins a transaction gets this very driver. */
    method Begin() returns (d: TxDriver)
      ensures d == this
    {
      return this;
    }

    method Exec(stmt: Stmt)
      modifies tx`log
      ensures tx.log == old(tx.log) + [stmt]
    {
      tx.Exec(stmt);
    }

    method Commit() {
    }

    method Rollback() {
    }

    method Close() {
    }
  }

  // ---------------------------------------------------------------- clients

  /** The database a plain client is connected to; opening a transaction may fail. */
  class Database {
    const refuses: nat -> bool
    var begun: nat

    constructor (refuses: nat -> bool)
      ensures this.refuses == refuses && begun == 0
    {
      this.refuses, begun := refuses, 0;
    }
  }

  datatype Driver = OnDatabase(db: Database) | InTransaction(tx: TxDriver)

  datatype BeginResult = Started(t: Transaction) | ErrTxStarted | BeginFailed

  class Client {
    const driver: Driver

    constructor (driver: Driver)
      ensures this.driver == driver
    {
      this.driver := driver;
    }

    /** Client.Tx: refused at once on a transactional client; otherwise a transaction of its own. */
    method Begin(refuses: nat -> bool) returns (r: BeginResult)
      modifies if driver.OnDatabase? then {driver.db} else {}
      ensures driver.InTransaction? <==> r.ErrTxStarted?
      ensures driver.OnDatabase? ==>
        driver.db.begun == old(driver.db.begun) + 1 && (r.BeginFailed? <==> driver.db.refuses(old(driver.db.begun)))
      ensures r.Started? ==>
        && fresh(r.t) && fresh(r.t.driver) && fresh(r.t.driver.tx) && r.t.client == null
        && r.t.driver.tx.log == [] && r.t.driver.tx.ends == 0
        && r.t.driver.onCommit == [] && r.t.driver.onRollback == []
    {
      match driver
      case InTransaction(_) => return ErrTxStarted;
      case OnDatabase(db) =>
        var refused := db.refuses(db.begun);
        db.begun := db.begun + 1;
        if refused {
          return BeginFailed;
        }
        var tx := new Underlying(refuses);
        var driver := new TxDriver(tx);
        var t := new Transaction(driver);
        return Started(t);
    }
  }

  // ---------------------------------------------------------------- inside a transaction

  /** One operation of a generated builder: begin, some statements, then commit or roll back. */
  datatype BuilderOp = BuilderOp(stmts: seq<Stmt>, commit: bool)

  /** What is done with the client of a transaction: builder operations, and attempts to begin
      another transaction. */
  datatype Step = Operation(op: BuilderOp) | BeginAgain

  function Statements(steps: seq<Step>): seq<Stmt> {
    if steps == [] then []
    else
      var last := steps[|steps| - 1];
      Statements(steps[..|steps| - 1]) + if last.Operation? then last.op.stmts else []
  }

  function Attempts(steps: seq<Step>): nat {
    if steps == [] then 0
    else Attempts(steps[..|steps| - 1]) + if steps[|steps| - 1].BeginAgain? then 1 else 0
  }

  method RunOp(d: TxDriver, op: BuilderOp)
    modifies d.tx`log
    ensures d.tx.log == old(d.tx.log) + op.stmts
  {
    var t := d.Begin();
    for i := 0 to |op.stmts|
      invariant d.tx.log == old(d.tx.log) + op.stmts[..i]
    {
      t.Exec(op.stmts[i]);
      assert op.stmts[..i + 1] == op.stmts[..i] + [op.stmts[i]];
    }
    assert op.stmts[..|op.stmts|] == op.stmts;
    if op.commit {
      t.Commit();
    } else {
      t.Rollback();
    }
    t.Close();
  }

  /** Transaction containment: over any run of builder operations and of attempts to begin again, the
      underlying transaction sees all the statements in order and is ended by none of them, its
      hooks are untouched, and every attempt is refused without reaching a database. */
  method RunSteps(c: Client, steps: seq<Step>) returns (refused: nat)
    requires c.driver.InTransaction?
    modifies c.driver.tx.tx`log
    ensures c.driver.tx.tx.log == old(c.driver.tx.tx.log) + Statements(steps)
    ensures refused == Attempts(steps)
  {
    refused := 0;
    for i := 0 to |steps|
      invariant c.driver.tx.tx.log == old(c.driver.tx.tx.log) + Statements(steps[..i])
      invariant refused == Attempts(steps[..i])
    {
      assert steps[..i + 1][..i] == steps[..i];
      match steps[i] {
        case Operation(op) => RunOp(c.driver.tx, op);
        case BeginAgain =>
          var r := c.Begin(_ => false);
          if r.ErrTxStarted? {
            refused := refused + 1;
          }
      }
    }
    assert steps[..|steps|] == steps;
  }

  // ---------------------------------------------------------------- ending the transaction

  datatype EndKind = Committing | RollingBack

  /** How often the innermost function runs under hooks that call the next one so many times. */
  function Calls(hooks: seq<EndHook>): nat {
    if hooks == [] then 1 else hooks[0].calls * Calls(hooks[1..])
  }

  function Repeat<T>(s: seq<T>, n: nat): seq<T> {
    if n == 0 then [] else Repeat(s, n - 1) + s
  }

  /** What the hooks of a fold register, and what they execute. */
  function Registered(hooks: seq<EndHook>): seq<EndHook> {
    if hooks == [] then [] else hooks[0].registers + Repeat(Registered(hooks[1..]), hooks[0].calls)
  }

  function Executed(hooks: seq<EndHook>): seq<Stmt> {
    if hooks == [] then [] else hooks[0].stmts + Repeat(Executed(hooks[1..]), hooks[0].calls)
  }

  /** Whether the whole returns an error, if the transaction was told to end `n` times before: the
      outermost hook decides; innermost, the transaction itself does. */
  function Fails(hooks: seq<EndHook>, refuses: nat -> bool, n: nat): bool
    decreases hooks, 0
  {
    if hooks == [] then refuses(n) else hooks[0].fails(Answers(hooks[1..], refuses, n, hooks[0].calls))
  }

  /** What the fold of `rest` returns when it is called `times` times in a row. */
  function Answers(rest: seq<EndHook>, refuses: nat -> bool, n: nat, times: nat): seq<bool>
    decreases rest, times + 1
  {
    if times == 0 then []
    else Answers(rest, refuses, n, times - 1) + [Fails(rest, refuses, n + (times - 1) * Calls(rest))]
  }

  /** One hook more. */
  lemma Unfold(hooks: seq<EndHook>, refuses: nat -> bool, n: nat)
    requires hooks != []
    ensures Calls(hooks) == hooks[0].calls * Calls(hooks[1..])
    ensures Registered(hooks) == hooks[0].registers + Repeat(Registered(hooks[1..]), hooks[0].calls)
    ensures Executed(hooks) == hooks[0].stmts + Repeat(Executed(hooks[1..]), hooks[0].calls)
    ensures Fails(hooks, refuses, n) == hooks[0].fails(Answers(hooks[1..], refuses, n, hooks[0].calls))
  {
  }

  lemma NoHooks(refuses: nat -> bool, n: nat)
    ensures Calls([]) == 1 && Registered([]) == [] && Executed([]) == [] && Fails([], refuses, n) == refuses(n)
  {
  }

  class Transaction {
    const driver: TxDriver
    var client: Client?  // stored by the first call of Client

    constructor (driver: TxDriver)
      ensures this.driver == driver && client == null
    {
      this.driver, client := driver, null;
    }

    /** Tx.Client: one transactional client, created once. */
    method GetClient() returns (c: Client)
      requires client != null ==> client.driver == InTransaction(driver)
      modifies this`client
      ensures c == client && c.driver == InTransaction(driver)
      ensures if old(client) != null then c == old(client) else fresh(c)
    {
      if client == null {
        client := new Client(InTransaction(driver));
      }
      c := client;
    }

    /** How often the transaction was ended one way, and the hooks registered for that end. */
    ghost function Ended(kind: EndKind): nat
      reads driver.tx
    {
      if kind == Committing then driver.tx.commits else driver.tx.rollbacks
    }

    function Hooks(kind: EndKind): seq<EndHook>
      reads driver
    {
      if kind == Committing then driver.onCommit else driver.onRollback
    }

    /** Tx.Commit and Tx.Rollback: the hooks registered by now, folded around the real end. Hooks
        registered meanwhile wait for the next time. */
    method End(kind: EndKind) returns (failed: bool)
      modifies driver, driver.tx
      ensures Ended(kind) == old(Ended(kind)) + Calls(old(Hooks(kind)))
      ensures Hooks(kind) == old(Hooks(kind)) + Registered(old(Hooks(kind)))
      ensures driver.tx.log == old(driver.tx.log) + Executed(old(Hooks(kind)))
      ensures failed == Fails(old(Hooks(kind)), driver.tx.refuses, old(driver.tx.ends))
      ensures forall other :: other != kind ==> Ended(other) == old(Ended(other)) && Hooks(other) == old(Hooks(other))
    {
      var hooks := Hooks(kind);
      failed := Run(kind, hooks);
    }

    /** Runs the fold of `hooks`: the first one, whose next function is the fold of the rest. */
    method Run(kind: EndKind, hooks: seq<EndHook>) returns (failed: bool)
      modifies driver, driver.tx
      ensures Ended(kind) == old(Ended(kind)) + Calls(hooks)
      ensures driver.tx.ends == old(driver.tx.ends) + Calls(hooks)
      ensures Hooks(kind) == old(Hooks(kind)) + Registered(hooks)
      ensures driver.tx.log == old(driver.tx.log) + Executed(hooks)
      ensures failed == Fails(hooks, driver.tx.refuses, old(driver.tx.ends))
      ensures forall other :: other != kind ==> Ended(other) == old(Ended(other)) && Hooks(other) == old(Hooks(other))
      decreases hooks, 0
    {
      hide Calls, Registered, Executed, Fails, Answers, Repeat;
      if hooks == [] {
        NoHooks(driver.tx.refuses, driver.tx.ends);
        failed := ReallyEnd(kind);
      } else {
        Unfold(hooks, driver.tx.refuses, driver.tx.ends);
        failed := RunHook(kind, hooks[0], hooks[1..]);
      }
    }

    /** The innermost function: the transaction's own end. */
    method ReallyEnd(kind: EndKind) returns (failed: bool)
      modifies driver.tx
      ensures Ended(kind) == old(Ended(kind)) + 1 && driver.tx.ends == old(driver.tx.ends) + 1
      ensures driver.tx.log == old(driver.tx.log) && failed == driver.tx.refuses(old(driver.tx.ends))
      ensures forall other :: other != kind ==> Ended(other) == old(Ended(other))
    {
      match kind {
        case Committing => failed := driver.tx.Commit();
        case RollingBack => failed := driver.tx.Rollback();
      }
    }

    /** One hook around the fold of the rest. */
    method RunHook(kind: EndKind, hook: EndHook, rest: seq<EndHook>) returns (failed: bool)
      modifies driver, driver.tx
      ensures Ended(kind) == old(Ended(kind)) + hook.calls * Calls(rest)
      ensures driver.tx.ends == old(driver.tx.ends) + hook.calls * Calls(rest)
      ensures Hooks(kind) == old(Hooks(kind)) + (hook.registers + Repeat(Registered(rest), hook.calls))
      ensures driver.tx.log == old(driver.tx.log) + (hook.stmts + Repeat(Executed(rest), hook.calls))
      ensures failed == hook.fails(Answers(rest, driver.tx.refuses, old(driver.tx.ends), hook.calls))
      ensures forall other :: other != kind ==> Ended(other) == old(Ended(other)) && Hooks(other) == old(Hooks(other))
      decreases rest, hook.calls + 2
    {
      hide Calls, Registered, Executed, Fails, Answers, Repeat;
      driver.tx.log := driver.tx.log + hook.stmts;
      Register(kind, hook.registers);
      var answers := RunTimes(kind, rest, hook.calls);
      failed := hook.fails(answers);
    }

    /** The next function called `times` times by one hook. */
    method RunTimes(kind: EndKind, rest: seq<EndHook>, times: nat) returns (answers: seq<bool>)
      modifies driver, driver.tx
      ensures Ended(kind) == old(Ended(kind)) + times * Calls(rest)
      ensures driver.tx.ends == old(driver.tx.ends) + times * Calls(rest)
      ensures Hooks(kind) == old(Hooks(kind)) + Repeat(Registered(rest), times)
      ensures driver.tx.log == old(driver.tx.log) + Repeat(Executed(rest), times)
      ensures answers == Answers(rest, driver.tx.refuses, old(driver.tx.ends), times)
      ensures forall other :: other != kind ==> Ended(other) == old(Ended(other)) && Hooks(other) == old(Hooks(other))
      decreases rest, times + 1
    {
      hide Calls, Registered, Executed, Fails;
      if times == 0 {
        return [];
      }
      answers := RunTimes(kind, rest, times - 1);
      var failed := Run(kind, rest);
      answers := answers + [failed];
      OneMore(times - 1, Calls(rest));
    }

    /** OnCommit and OnRollback. */
    method Register(kind: EndKind, hooks: seq<EndHook>)
      modifies driver
      ensures Hooks(kind) == old(Hooks(kind)) + hooks
      ensures forall other :: other != kind ==> Hooks(other) == old(Hooks(other))
    {
      match kind {
        case Committing => driver.onCommit := driver.onCommit + hooks;
        case RollingBack => driver.onRollback := driver.onRollback + hooks;
      }
    }
  }

  lemma OneMore(n: nat, c: nat)
    ensures (n + 1) * c == n * c + c
  {
  }

  /** Hooks that call the next function once leave exactly one end, however many there are; and no
      end happens exactly if some hook does not call on. */
  lemma {:induction false} EndsOnce(hooks: seq<EndHook>)
    ensures (forall i :: 0 <= i < |hooks| ==> hooks[i].calls == 1) ==> Calls(hooks) == 1
    ensures Calls(hooks) == 0 <==> exists i :: 0 <= i < |hooks| && hooks[i].calls == 0
  {
    if hooks == [] {
    } else {
      EndsOnce(hooks[1..]);
      var rest := Calls(hooks[1..]);
      if hooks[0].calls != 0 && rest != 0 {
        assert hooks[0].calls * rest >= 1 by {
          Positive(hooks[0].calls, rest);
        }
      }
      assert forall i :: 0 <= i < |hooks| - 1 ==> hooks[1..][i] == hooks[i + 1];
      if i :| 0 <= i < |hooks| - 1 && hooks[1..][i].calls == 0 {
        assert hooks[i + 1].calls == 0;
      }
    }
  }

  lemma Positive(a: nat, b: nat)
    requires a > 0 && b > 0
    ensures a * b >= 1
  {
  }

  /** A hook that calls on once and passes an error on. */
  predicate PassesOn(hook: EndHook) {
    hook.calls == 1 && hook.fails([true])
  }

  lemma FailsOnce(hooks: seq<EndHook>, refuses: nat -> bool, n: nat)
    requires hooks != [] && hooks[0].calls == 1
    ensures Fails(hooks, refuses, n) == hooks[0].fails([Fails(hooks[1..], refuses, n)])
  {
    assert Answers(hooks[1..], refuses, n, 0) == [];
    assert Answers(hooks[1..], refuses, n, 1) == [Fails(hooks[1..], refuses, n + 0 * Calls(hooks[1..]))];
  }

  /** Under hooks that call on once and pass errors on, the whole fails exactly if the transaction's
      own end failed or some hook fails by itself. */
  lemma {:induction false} FailsAsUnderlying(hooks: seq<EndHook>, refuses: nat -> bool, n: nat)
    requires forall i :: 0 <= i < |hooks| ==> PassesOn(hooks[i])
    ensures Fails(hooks, refuses, n) <==> refuses(n) || exists i :: 0 <= i < |hooks| && hooks[i].fails([false])
  {
    hide Fails;
    NoHooks(refuses, n);
    if hooks == [] {
    } else {
      FailsAsUnderlying(hooks[1..], refuses, n);
      FailsOnce(hooks, refuses, n);
      assert PassesOn(hooks[0]);
      assert forall i :: 0 <= i < |hooks| - 1 ==> hooks[1..][i] == hooks[i + 1];
      if i :| 0 <= i < |hooks| - 1 && hooks[1..][i].fails([false]) {
        assert hooks[i + 1].fails([false]);
      }
      if i :| 0 <= i < |hooks| && hooks[i].fails([false]) {
        assert i == 0 || hooks[1..][i - 1].fails([false]);
      }
    }
  }

  /** Hook `i` swallows the error of what it called, and no hook around it fails by itself. */
  ghost predicate Swallowed(hooks: seq<EndHook>, refuses: nat -> bool, n: nat, i: nat)
    requires i < |hooks|
  {
    && Fails(hooks[i + 1..], refuses, n) && !hooks[i].fails([true])
    && forall j :: 0 <= j < i ==> !hooks[j].fails([false])
  }

  /** Under hooks that call on once, a failed end is reported as success exactly if some hook swallows
      the error, and no hook around that one fails. */
  lemma {:induction false} HiddenExactly(hooks: seq<EndHook>, refuses: nat -> bool, n: nat)
    requires refuses(n) && forall i :: 0 <= i < |hooks| ==> hooks[i].calls == 1
    ensures !Fails(hooks, refuses, n) <==> exists i :: 0 <= i < |hooks| && Swallowed(hooks, refuses, n, i)
  {
    hide Fails;
    NoHooks(refuses, n);
    if hooks == [] {
    } else {
      var rest := hooks[1..];
      HiddenExactly(rest, refuses, n);
      FailsOnce(hooks, refuses, n);
      assert forall i :: 0 <= i < |rest| ==> rest[i] == hooks[i + 1] && rest[i + 1..] == hooks[i + 2..];
      if i :| 0 <= i < |hooks| && Swallowed(hooks, refuses, n, i) {
        if i > 0 {
          assert Swallowed(rest, refuses, n, i - 1) by {
            assert forall j :: 0 <= j < i - 1 ==> rest[j] == hooks[j + 1];
          }
        }
      }
      if !Fails(hooks, refuses, n) {
        if Fails(rest, refuses, n) {
          assert Swallowed(hooks, refuses, n, 0);
        } else {
          var i :| 0 <= i < |rest| && Swallowed(rest, refuses, n, i);
          assert Swallowed(hooks, refuses, n, i + 1) by {
            assert forall j :: 0 < j < i + 1 ==> hooks[j] == rest[j - 1];
          }
        }
      }
    }
  }
}
