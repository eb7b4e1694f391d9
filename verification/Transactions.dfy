/**
 Nested transactions: a path of live `Transaction` values, each finished by commit,
 rollback or drop, driving the server's stack of named savepoints.
 `DB` is the content of the database.
 */
module Transactions {
  import opened Wrappers
  import opened Sequences
  import opened Characters

  // ---------------------------------------------------------------------------
  // The server's transaction block
  // ---------------------------------------------------------------------------

  datatype Entry<DB> = Entry(name: string, snapshot: DB)

  /** `stack` holds the savepoints of the open block, the latest last. */
  datatype Server<DB> = Server(db: DB, open: bool, atBegin: DB, stack: seq<Entry<DB>>, aborted: bool)

  /** `Statement(None)` is a statement that fails. */
  datatype Command<DB> =
    | StartTransaction | CommitBlock | RollbackBlock
    | SetSavepoint(name: string) | Release(name: string) | RollbackTo(name: string)
    | Statement(next: Option<DB>)

  /** The position of the latest savepoint of that name, or -1. */
  function Topmost<DB>(stack: seq<Entry<DB>>, name: string): (p: int)
    ensures -1 <= p < |stack|
    ensures p >= 0 ==> stack[p].name == name
    ensures forall i :: p < i < |stack| ==> stack[i].name != name
  {
    if stack == [] then -1
    else if stack[|stack| - 1].name == name then |stack| - 1
    else Topmost(stack[..|stack| - 1], name)
  }

  /** What PostgreSQL does with a command, and whether it succeeds. */
  function Respond<DB>(s: Server<DB>, c: Command<DB>): (Server<DB>, bool) {
    match c
    case StartTransaction =>
      if s.open then (s, true) else (Server(s.db, true, s.db, [], false), true)
    case CommitBlock =>
      (Server(if s.open && s.aborted then s.atBegin else s.db, false, s.atBegin, [], false), true)
    case RollbackBlock =>
      (Server(if s.open then s.atBegin else s.db, false, s.atBegin, [], false), true)
    case Statement(next) =>
      if s.open && s.aborted then (s, false)
      else if next.Some? then (s.(db := next.value), true)
      else (s.(aborted := s.open), false)
    case SetSavepoint(name) =>
      if !s.open || s.aborted then (s, false)
      else (s.(stack := s.stack + [Entry(name, s.db)]), true)
    case Release(name) =>
      var p := Topmost(s.stack, name);
      if !s.open || s.aborted || p < 0 then (s.(aborted := s.open), false)
      else (s.(stack := s.stack[..p]), true)
    case RollbackTo(name) =>
      var p := Topmost(s.stack, name);
      if !s.open || p < 0 then (s.(aborted := s.open), false)
      else (s.(db := s.stack[p].snapshot, stack := s.stack[..p + 1], aborted := false), true)
  }

  // ---------------------------------------------------------------------------
  // The client's live transactions
  // ---------------------------------------------------------------------------

  datatype Savepoint = Savepoint(name: string, depth: nat)

  /** `live` is the nesting path; the outermost transaction has no savepoint. */
  datatype Session<DB> = Session(server: Server<DB>, live: seq<Option<Savepoint>>)

  /** `AbandonNest` is a nested begin whose future is dropped after the command was sent. */
  datatype Op<DB> =
    | Begin | Nest(name: Option<string>) | AbandonNest(name: Option<string>)
    | Execute(next: Option<DB>)
    | Commit | Rollback | Drop

  function Depth(sp: Option<Savepoint>): nat {
    if sp.Some? then sp.value.depth else 0
  }

  /** The savepoint a nested begin asks for under the given transaction. */
  function Requested(parent: Option<Savepoint>, name: Option<string>): Savepoint {
    var depth := Depth(parent) + 1;
    Savepoint(if name.Some? then name.value else "sp_" + DecimalDigits(depth), depth)
  }

  function CommitCommand<DB>(sp: Option<Savepoint>): Command<DB> {
    if sp.Some? then Release(sp.value.name) else CommitBlock
  }

  function RollbackCommand<DB>(sp: Option<Savepoint>): Command<DB> {
    if sp.Some? then RollbackTo(sp.value.name) else RollbackBlock
  }

  /** Borrowing makes nesting last-in first-out, and only one block can be open. */
  predicate Allowed<DB>(s: Session<DB>, op: Op<DB>) {
    (op.Begin? ==> s.live == []) && (op.Begin? || op.Execute? || s.live != [])
  }

  function Step<DB>(s: Session<DB>, op: Op<DB>): Session<DB>
    requires Allowed(s, op)
  {
    match op
    case Begin => Session(Respond(s.server, StartTransaction).0, [None])
    case Nest(name) =>
      var sp := Requested(Last(s.live), name);
      var r := Respond(s.server, SetSavepoint(sp.name));
      Session(r.0, if r.1 then s.live + [Some(sp)] else s.live)
    case AbandonNest(name) => s.(server := Respond(s.server, SetSavepoint(Requested(Last(s.live), name).name)).0)
    case Execute(next) => s.(server := Respond(s.server, Statement(next)).0)
    case Commit => Session(Respond(s.server, CommitCommand(Last(s.live))).0, Front(s.live))
    case Rollback => Session(Respond(s.server, RollbackCommand(Last(s.live))).0, Front(s.live))
    case Drop => Session(Respond(s.server, RollbackCommand(Last(s.live))).0, Front(s.live))
  }

  // ---------------------------------------------------------------------------
  // The specification: a stack of snapshots, without any names
  // ---------------------------------------------------------------------------

  /** `frames[i]` is the database when the i-th live transaction began. */
  datatype Snapshots<DB> = Snapshots(db: DB, frames: seq<DB>, aborted: bool)

  function Ideal<DB>(a: Snapshots<DB>, op: Op<DB>): Snapshots<DB> {
    if !op.Begin? && !op.Execute? && a.frames == [] then a else
    match op
    case Begin => Snapshots(a.db, [a.db], false)
    case Nest(_) => if a.aborted then a else a.(frames := a.frames + [a.db])
    case AbandonNest(_) => a
    case Execute(next) =>
      if a.aborted then a
      else if next.Some? then a.(db := next.value)
      else a.(aborted := a.frames != [])
    case Commit =>
      // a failed outermost transaction cannot be committed; a failed inner one stays failed
      if |a.frames| > 1 then a.(frames := Front(a.frames))
      else Snapshots(if a.aborted then a.frames[0] else a.db, [], false)
    case Rollback => Snapshots(Last(a.frames), Front(a.frames), false)
    case Drop => Snapshots(Last(a.frames), Front(a.frames), false)
  }

  // ---------------------------------------------------------------------------
  // The simulation
  // ---------------------------------------------------------------------------

  ghost predicate NestedAt<DB>(s: Session<DB>, i: int) {
    0 < i < |s.live| && s.live[i].Some?
  }

  /** Where the savepoint of the i-th live transaction lies on the server's stack. */
  ghost function Position<DB>(s: Session<DB>, i: int): int
    requires NestedAt(s, i)
  {
    Topmost(s.server.stack, s.live[i].value.name)
  }

  /**
   The client's path mirrors the snapshots: the latest entry with a live transaction's name
   is its own savepoint, deeper transactions have later entries, and anything else on the
   server's stack is a leftover.
   */
  ghost predicate Simulates<DB>(s: Session<DB>, a: Snapshots<DB>) {
    && s.server.db == a.db && |s.live| == |a.frames|
    && (s.server.open <==> s.live != [])
    && (s.server.aborted <==> a.aborted)
    && (s.live == [] ==> !a.aborted)
    && (s.live != [] ==> s.live[0] == None && s.server.atBegin == a.frames[0])
    && (forall i :: 0 < i < |s.live| ==>
          NestedAt(s, i) && Position(s, i) >= 0 && s.server.stack[Position(s, i)].snapshot == a.frames[i])
    && (forall i, j :: 0 < i < j < |s.live| ==> NestedAt(s, i) && NestedAt(s, j) && Position(s, i) < Position(s, j))
    && (forall i :: 0 < i < |s.live| ==> NestedAt(s, i) && s.live[i].value.depth == i)
  }

  ghost predicate LiveName<DB>(s: Session<DB>, name: string) {
    exists i :: NestedAt(s, i) && s.live[i].value.name == name
  }

  /** A nested begin takes a name that no live transaction has. */
  ghost predicate FreshName<DB>(s: Session<DB>, op: Op<DB>) {
    s.live != [] && (op.Nest? || op.AbandonNest?) ==> !LiveName(s, Requested(Last(s.live), op.name).name)
  }

  lemma {:induction false} TopmostOfPrefix<DB>(stack: seq<Entry<DB>>, name: string, n: nat)
    requires Topmost(stack, name) < n <= |stack|
    ensures Topmost(stack[..n], name) == Topmost(stack, name)
  {
    if n < |stack| {
      TopmostOfPrefix(stack[..|stack| - 1], name, n);
      assert stack[..|stack| - 1][..n] == stack[..n];
    } else {
      assert stack[..n] == stack;
    }
  }

  lemma TopmostOfPush<DB>(stack: seq<Entry<DB>>, e: Entry<DB>, name: string)
    ensures Topmost(stack + [e], name) == if e.name == name then |stack| else Topmost(stack, name)
  {
    assert (stack + [e])[..|stack|] == stack;
  }

  lemma PushKeepsPositions<DB>(s: Session<DB>, a: Snapshots<DB>, e: Entry<DB>)
    requires Simulates(s, a) && !LiveName(s, e.name)
    ensures var s' := s.(server := s.server.(stack := s.server.stack + [e]));
            Simulates(s', a) && forall i :: NestedAt(s, i) ==> NestedAt(s', i) && Position(s', i) == Position(s, i)
  {
    var s' := s.(server := s.server.(stack := s.server.stack + [e]));
    forall i | NestedAt(s, i)
      ensures NestedAt(s', i) && Position(s', i) == Position(s, i)
    {
      TopmostOfPush(s.server.stack, e, s.live[i].value.name);
    }
  }

  /** Cutting the stack above the parents' savepoints leaves the parents simulated. */
  lemma CutKeepsParents<DB>(s: Session<DB>, a: Snapshots<DB>, n: nat, db: DB, aborted: bool)
    requires Simulates(s, a) && |s.live| > 1
    requires Position(s, |s.live| - 1) <= n <= |s.server.stack|
    ensures Simulates(
              Session(s.server.(db := db, stack := s.server.stack[..n], aborted := aborted), Front(s.live)),
              Snapshots(db, Front(a.frames), aborted))
  {
    var s' := Session(s.server.(db := db, stack := s.server.stack[..n], aborted := aborted), Front(s.live));
    forall i | 0 < i < |s'.live|
      ensures NestedAt(s', i) && Position(s', i) == Position(s, i) < n
    {
      assert NestedAt(s, i) && Position(s, i) < Position(s, |s.live| - 1);
      TopmostOfPrefix(s.server.stack, s.live[i].value.name, n);
    }
  }

  lemma AbandonedSimulates<DB>(s: Session<DB>, a: Snapshots<DB>, op: Op<DB>)
    requires Simulates(s, a) && Allowed(s, op) && FreshName(s, op) && op.AbandonNest?
    ensures Simulates(Step(s, op), Ideal(a, op))
  {
    if !s.server.aborted {
      PushKeepsPositions(s, a, Entry(Requested(Last(s.live), op.name).name, s.server.db));
    }
  }

  lemma NestSimulates<DB>(s: Session<DB>, a: Snapshots<DB>, op: Op<DB>)
    requires Simulates(s, a) && Allowed(s, op) && FreshName(s, op) && op.Nest?
    ensures Simulates(Step(s, op), Ideal(a, op))
  {
    if !s.server.aborted {
      var sp := Requested(Last(s.live), op.name);
      var e := Entry(sp.name, s.server.db);
      var s' := s.(server := s.server.(stack := s.server.stack + [e]));
      PushKeepsPositions(s, a, e);
      TopmostOfPush(s.server.stack, e, sp.name);
      assert Depth(Last(s.live)) == |s.live| - 1 by {
        assert |s.live| > 1 ==> NestedAt(s, |s.live| - 1);
      }
      OpenFrame(s', a, sp);
    }
  }

  /** The new transaction owns the entry on top of the stack. */
  lemma OpenFrame<DB>(s: Session<DB>, a: Snapshots<DB>, sp: Savepoint)
    requires Simulates(s, a) && s.live != [] && s.server.stack != [] && sp.depth == |s.live|
    requires Topmost(s.server.stack, sp.name) == |s.server.stack| - 1 && Last(s.server.stack).snapshot == a.db
    requires forall i :: NestedAt(s, i) ==> Position(s, i) < |s.server.stack| - 1
    ensures Simulates(s.(live := s.live + [Some(sp)]), a.(frames := a.frames + [a.db]))
  {
    var s' := s.(live := s.live + [Some(sp)]);
    forall i | 0 < i < |s'.live|
      ensures NestedAt(s', i) && s'.live[i].value.depth == i
      ensures i < |s.live| ==> NestedAt(s, i) && Position(s', i) == Position(s, i)
    {
      assert i < |s.live| ==> NestedAt(s, i);
    }
  }

  /** One step keeps the simulation when nested names are fresh. */
  lemma StepSimulates<DB>(s: Session<DB>, a: Snapshots<DB>, op: Op<DB>)
    requires Simulates(s, a) && Allowed(s, op) && FreshName(s, op)
    ensures Simulates(Step(s, op), Ideal(a, op))
  {
    match op
    case Begin =>
    case Nest(_) => NestSimulates(s, a, op);
    case AbandonNest(_) => AbandonedSimulates(s, a, op);
    case Execute(_) => ExecuteSimulates(s, a, op);
    case Commit =>
      if |s.live| > 1 {
        assert NestedAt(s, |s.live| - 1);
        var p := Position(s, |s.live| - 1);
        CutKeepsParents(s, a, if a.aborted then |s.server.stack| else p, a.db, a.aborted);
        assert s.server.stack[..|s.server.stack|] == s.server.stack;
      }
    case Rollback => UndoSimulates(s, a, op);
    case Drop => UndoSimulates(s, a, op);
  }

  lemma ExecuteSimulates<DB>(s: Session<DB>, a: Snapshots<DB>, op: Op<DB>)
    requires Simulates(s, a) && op.Execute?
    ensures Simulates(Step(s, op), Ideal(a, op))
  {
    var s' := Step(s, op);
    forall i | 0 < i < |s.live|
      ensures NestedAt(s', i) && Position(s', i) == Position(s, i)
    {
      assert NestedAt(s, i);
    }
  }

  lemma UndoSimulates<DB>(s: Session<DB>, a: Snapshots<DB>, op: Op<DB>)
    requires Simulates(s, a) && s.live != [] && (op.Rollback? || op.Drop?)
    ensures Simulates(Step(s, op), Ideal(a, op))
  {
    if |s.live| > 1 {
      var i := |s.live| - 1;
      assert NestedAt(s, i);
      var p, db := Position(s, i), a.frames[i];
      assert Step(s, op) == Session(s.server.(db := db, stack := s.server.stack[..p + 1], aborted := false), Front(s.live));
      assert Ideal(a, op) == Snapshots(db, Front(a.frames), false);
      CutKeepsParents(s, a, p + 1, db, false);
    } else {
      assert Step(s, op).live == [];
    }
  }

  // ---------------------------------------------------------------------------
  // Whole runs
  // ---------------------------------------------------------------------------

  ghost predicate AllowedRun<DB>(s: Session<DB>, ops: seq<Op<DB>>)
    decreases ops
  {
    ops == [] || (Allowed(s, ops[0]) && AllowedRun(Step(s, ops[0]), ops[1..]))
  }

  /** A run in which every nested begin takes a name that is fresh at that moment. */
  ghost predicate FreshRun<DB>(s: Session<DB>, ops: seq<Op<DB>>)
    decreases ops
  {
    ops == [] || (Allowed(s, ops[0]) && FreshName(s, ops[0]) && FreshRun(Step(s, ops[0]), ops[1..]))
  }

  ghost function Run<DB>(s: Session<DB>, ops: seq<Op<DB>>): Session<DB>
    requires AllowedRun(s, ops)
    decreases ops
  {
    if ops == [] then s else Run(Step(s, ops[0]), ops[1..])
  }

  ghost function IdealRun<DB>(a: Snapshots<DB>, ops: seq<Op<DB>>): Snapshots<DB>
    decreases ops
  {
    if ops == [] then a else IdealRun(Ideal(a, ops[0]), ops[1..])
  }

  lemma {:induction false} FreshIsAllowed<DB>(s: Session<DB>, ops: seq<Op<DB>>)
    requires FreshRun(s, ops)
    ensures AllowedRun(s, ops)
    decreases ops
  {
    if ops == [] {
    } else {
      FreshIsAllowed(Step(s, ops[0]), ops[1..]);
    }
  }

  lemma {:induction false} RunSimulates<DB>(s: Session<DB>, a: Snapshots<DB>, ops: seq<Op<DB>>)
    requires Simulates(s, a) && FreshRun(s, ops)
    ensures AllowedRun(s, ops) && Simulates(Run(s, ops), IdealRun(a, ops))
    decreases ops
  {
    if ops == [] {
    } else {
      StepSimulates(s, a, ops[0]);
      RunSimulates(Step(s, ops[0]), Ideal(a, ops[0]), ops[1..]);
    }
  }

  function Idle<DB>(db: DB): Session<DB> {
    Session(Server(db, false, db, [], false), [])
  }

  /** The refinement: after any run with fresh names the database is what the snapshots say. */
  lemma RunRefinesSnapshots<DB>(db: DB, ops: seq<Op<DB>>)
    requires FreshRun(Idle(db), ops)
    ensures AllowedRun(Idle(db), ops)
    ensures Run(Idle(db), ops).server.db == IdealRun(Snapshots(db, [], false), ops).db
  {
    RunSimulates(Idle(db), Snapshots(db, [], false), ops);
  }

  /** In every reachable state, nothing above a live transaction's savepoint has its name. */
  lemma NoNamesakeAbove<DB>(db: DB, ops: seq<Op<DB>>, i: nat) returns (p: nat)
    requires FreshRun(Idle(db), ops) && AllowedRun(Idle(db), ops)
    requires 0 < i < |Run(Idle(db), ops).live|
    ensures var s := Run(Idle(db), ops);
            && s.live[i].Some? && p < |s.server.stack| && s.server.stack[p].name == s.live[i].value.name
            && |IdealRun(Snapshots(db, [], false), ops).frames| == |s.live|
            && s.server.stack[p].snapshot == IdealRun(Snapshots(db, [], false), ops).frames[i]
            && forall q :: p < q < |s.server.stack| ==> s.server.stack[q].name != s.live[i].value.name
  {
    RunSimulates(Idle(db), Snapshots(db, [], false), ops);
    var s := Run(Idle(db), ops);
    assert NestedAt(s, i);
    p := Position(s, i);
  }

  // ---------------------------------------------------------------------------
  // Undoing a whole nested transaction
  // ---------------------------------------------------------------------------

  /** The first `n` live transactions stay live all through the run. */
  ghost predicate StaysInside<DB>(a: Snapshots<DB>, ops: seq<Op<DB>>, n: nat)
    decreases ops
  {
    |a.frames| >= n && (ops == [] || (!ops[0].Begin? && StaysInside(Ideal(a, ops[0]), ops[1..], n)))
  }

  lemma {:induction false} InsideKeepsFrames<DB>(a: Snapshots<DB>, ops: seq<Op<DB>>, n: nat)
    requires n > 0 && StaysInside(a, ops, n)
    ensures var b := IdealRun(a, ops);
            |b.frames| >= n && b.frames[..n] == a.frames[..n]
    decreases ops
  {
    if ops == [] {
    } else {
      InsideKeepsFrames(Ideal(a, ops[0]), ops[1..], n);
    }
  }

  lemma {:induction false} IdealRunAppend<DB>(a: Snapshots<DB>, xs: seq<Op<DB>>, ys: seq<Op<DB>>)
    ensures IdealRun(a, xs + ys) == IdealRun(IdealRun(a, xs), ys)
    decreases xs
  {
    if xs == [] {
      assert xs + ys == ys;
    } else {
      assert (xs + ys)[1..] == xs[1..] + ys;
      IdealRunAppend(Ideal(a, xs[0]), xs[1..], ys);
    }
  }

  /** Everything that happened under the innermost of `n` frames is undone by its rollback. */
  lemma IdealRollback<DB>(a: Snapshots<DB>, inside: seq<Op<DB>>)
    requires a.frames != [] && StaysInside(a, inside, |a.frames|) && |IdealRun(a, inside).frames| == |a.frames|
    ensures IdealRun(a, inside + [Rollback]) == Snapshots(Last(a.frames), Front(a.frames), false)
  {
    InsideKeepsFrames(a, inside, |a.frames|);
    IdealRunAppend(a, inside, [Rollback]);
    var b := IdealRun(a, inside);
    assert b.frames == a.frames by {
      assert b.frames[..|a.frames|] == b.frames && a.frames[..|a.frames|] == a.frames;
    }
    assert IdealRun(b, [Rollback]) == Ideal(b, Rollback);
  }

  /** A nested transaction as a client runs it, ended by a rollback. */
  function RolledBack<DB>(name: Option<string>, inside: seq<Op<DB>>): seq<Op<DB>> {
    [Nest(name)] + (inside + [Rollback])
  }

  /** The operations use fresh names, finish no outer transaction, and finish all those they begin. */
  ghost predicate RunsInside<DB>(s: Session<DB>, a: Snapshots<DB>, name: Option<string>, inside: seq<Op<DB>>) {
    && FreshRun(s, RolledBack(name, inside))
    && StaysInside(Ideal(a, Nest(name)), inside, |s.live| + 1)
    && |IdealRun(Ideal(a, Nest(name)), inside).frames| == |s.live| + 1
  }

  lemma IdealUndoes<DB>(a: Snapshots<DB>, name: Option<string>, inside: seq<Op<DB>>, n: nat)
    requires a.frames != [] && !a.aborted && n == |a.frames| + 1
    requires StaysInside(Ideal(a, Nest(name)), inside, n) && |IdealRun(Ideal(a, Nest(name)), inside).frames| == n
    ensures IdealRun(a, RolledBack(name, inside)) == a
  {
    assert RolledBack(name, inside)[1..] == inside + [Rollback];
    IdealRollback(Ideal(a, Nest(name)), inside);
    assert Front(a.frames + [a.db]) == a.frames;
  }

  /** The database is as before, and the same transactions are live and usable. */
  ghost predicate Restored<DB>(s: Session<DB>, s': Session<DB>) {
    s'.server.db == s.server.db && |s'.live| == |s.live| && !s'.server.aborted
  }

  lemma SameSnapshots<DB>(s: Session<DB>, s': Session<DB>, a: Snapshots<DB>)
    requires Simulates(s, a) && Simulates(s', a) && !a.aborted
    ensures Restored(s, s')
  {}

  /** Whatever ran inside a nested transaction, also failures, its rollback restores the database. */
  lemma RollbackUndoesAll<DB>(s: Session<DB>, a: Snapshots<DB>, name: Option<string>, inside: seq<Op<DB>>)
    requires Simulates(s, a) && s.live != [] && !a.aborted
    ensures RunsInside(s, a, name, inside) ==>
              AllowedRun(s, RolledBack(name, inside)) && Restored(s, Run(s, RolledBack(name, inside)))
  {
    if RunsInside(s, a, name, inside) {
      RunSimulates(s, a, RolledBack(name, inside));
      IdealUndoes(a, name, inside, |s.live| + 1);
      SameSnapshots(s, Run(s, RolledBack(name, inside)), a);
    }
  }

  // ---------------------------------------------------------------------------
  // Automatic names
  // ---------------------------------------------------------------------------

  ghost predicate AutoNamed<DB>(s: Session<DB>) {
    forall i :: NestedAt(s, i) ==> s.live[i].value.name == "sp_" + DecimalDigits(i)
  }

  lemma AutoNameIsFresh<DB>(s: Session<DB>, a: Snapshots<DB>, op: Op<DB>)
    requires Simulates(s, a) && AutoNamed(s) && Allowed(s, op)
    requires op.Nest? || op.AbandonNest? ==> op.name == None
    ensures FreshName(s, op)
  {
    if s.live != [] && (op.Nest? || op.AbandonNest?) {
      var d := Depth(Last(s.live)) + 1;
      assert |s.live| > 1 ==> NestedAt(s, |s.live| - 1);
      forall i | NestedAt(s, i) ensures s.live[i].value.name != "sp_" + DecimalDigits(d) {
        if s.live[i].value.name == "sp_" + DecimalDigits(d) {
          assert ("sp_" + DecimalDigits(i))[3..] == ("sp_" + DecimalDigits(d))[3..];
          DigitsInjective(i, d);
        }
      }
    }
  }

  lemma StepKeepsAutoNames<DB>(s: Session<DB>, a: Snapshots<DB>, op: Op<DB>)
    requires Simulates(s, a) && AutoNamed(s) && Allowed(s, op)
    requires op.Nest? ==> op.name == None
    ensures AutoNamed(Step(s, op))
  {
    var s' := Step(s, op);
    forall i | NestedAt(s', i) ensures s'.live[i].value.name == "sp_" + DecimalDigits(i) {
      if i < |s.live| {
        assert NestedAt(s, i);
      } else {
        assert |s.live| > 1 ==> NestedAt(s, |s.live| - 1);
      }
    }
  }

  /** Names made from the depth are always fresh, so such runs refine the snapshots unconditionally. */
  lemma {:induction false} AutoNamesAreFresh<DB>(s: Session<DB>, a: Snapshots<DB>, ops: seq<Op<DB>>)
    requires Simulates(s, a) && AutoNamed(s) && AllowedRun(s, ops)
    requires forall i :: 0 <= i < |ops| ==> (ops[i].Nest? || ops[i].AbandonNest? ==> ops[i].name == None)
    ensures FreshRun(s, ops)
    ensures Run(s, ops).server.db == IdealRun(a, ops).db
    decreases ops
  {
    if ops == [] {
    } else {
      var op, s' := ops[0], Step(s, ops[0]);
      AutoNameIsFresh(s, a, op);
      StepSimulates(s, a, op);
      StepKeepsAutoNames(s, a, op);
      AutoNamesAreFresh(s', Ideal(a, op), ops[1..]);
    }
  }

  // ---------------------------------------------------------------------------
  // What the caller is told
  // ---------------------------------------------------------------------------

  /** Whether the server accepts what the operation sends. */
  function Answer<DB>(s: Session<DB>, op: Op<DB>): bool
    requires Allowed(s, op)
  {
    match op
    case Begin => Respond(s.server, StartTransaction).1
    case Nest(name) => Respond(s.server, SetSavepoint(Requested(Last(s.live), name).name)).1
    case AbandonNest(name) => Respond(s.server, SetSavepoint(Requested(Last(s.live), name).name)).1
    case Execute(next) => Respond(s.server, Statement(next)).1
    case Commit => Respond(s.server, CommitCommand(Last(s.live))).1
    case Rollback => Respond(s.server, RollbackCommand(Last(s.live))).1
    case Drop => Respond(s.server, RollbackCommand(Last(s.live))).1
  }

  /**
   A rollback always succeeds and restores the snapshot. A nested transaction can be begun and
   committed exactly when nothing has failed. The commit of the outermost transaction always
   reports success, and keeps its changes exactly when nothing has failed.
   */
  lemma AnswersExactly<DB>(s: Session<DB>, a: Snapshots<DB>, op: Op<DB>)
    requires Simulates(s, a) && s.live != [] && !op.Begin?
    ensures op.Rollback? || op.Drop? ==> Answer(s, op) && Step(s, op).server.db == Last(a.frames)
    ensures op.Nest? || op.AbandonNest? ==> (Answer(s, op) <==> !a.aborted)
    ensures op.Nest? ==> (Answer(s, op) <==> |Step(s, op).live| == |s.live| + 1)
    ensures op.Execute? ==> (Answer(s, op) <==> !a.aborted && op.next.Some?)
    ensures op.Commit? && |s.live| > 1 ==> (Answer(s, op) <==> !a.aborted) && Step(s, op).server.db == a.db
    ensures op.Commit? && |s.live| == 1 ==>
              Answer(s, op) && Step(s, op).server.db == if a.aborted then a.frames[0] else a.db
  {
    var top := |s.live| - 1;
    if top > 0 {
      assert NestedAt(s, top) && Position(s, top) >= 0;
    }
  }

  // ---------------------------------------------------------------------------
  // Reused names: exactly when nesting is safe
  // ---------------------------------------------------------------------------

  function AfterNest<DB>(s: Session<DB>, x: DB, name: string): Session<DB>
    requires s.live != []
  {
    Step(Step(s, Execute(Some(x))), Nest(Some(name)))
  }

  function IdealAfterNest<DB>(a: Snapshots<DB>, x: DB, name: string): Snapshots<DB> {
    Ideal(Ideal(a, Execute(Some(x))), Nest(Some(name)))
  }

  /** After any statement and a nested begin of that name, every fresh-named run stays right. */
  ghost predicate SafeToNest<DB(!new)>(s: Session<DB>, a: Snapshots<DB>, name: string)
    requires s.live != []
  {
    forall x, ops {:trigger FreshRun(AfterNest(s, x, name), ops)} :: FreshRun(AfterNest(s, x, name), ops) ==>
      AllowedRun(AfterNest(s, x, name), ops)
      && Run(AfterNest(s, x, name), ops).server.db == IdealRun(IdealAfterNest(a, x, name), ops).db
  }

  function Commits<DB>(k: nat, rest: seq<Op<DB>>): seq<Op<DB>> {
    if k == 0 then rest else [Commit] + Commits(k - 1, rest)
  }

  /** In a failed block, commits of inner transactions only shorten the client's path. */
  lemma {:induction false} CommitsWhileAborted<DB>(s: Session<DB>, a: Snapshots<DB>, k: nat, rest: seq<Op<DB>>)
    requires s.server.open && s.server.aborted && k < |s.live| && |a.frames| == |s.live|
    requires forall i :: 0 < i < |s.live| ==> s.live[i].Some?
    requires FreshRun(s.(live := s.live[..|s.live| - k]), rest)
    ensures FreshRun(s, Commits(k, rest)) && AllowedRun(s, Commits(k, rest))
    ensures AllowedRun(s.(live := s.live[..|s.live| - k]), rest)
    ensures Run(s, Commits(k, rest)) == Run(s.(live := s.live[..|s.live| - k]), rest)
    ensures IdealRun(a, Commits(k, rest)) == IdealRun(a.(frames := a.frames[..|a.frames| - k]), rest)
    decreases k
  {
    if k == 0 {
      assert s.live[..|s.live|] == s.live && a.frames[..|a.frames|] == a.frames;
      FreshIsAllowed(s, rest);
    } else {
      var s', a' := Step(s, Commit), Ideal(a, Commit);
      assert s' == s.(live := Front(s.live)) && a' == a.(frames := Front(a.frames));
      assert s'.live[..|s'.live| - (k - 1)] == s.live[..|s.live| - k];
      assert a'.frames[..|a'.frames| - (k - 1)] == a.frames[..|a.frames| - k];
      CommitsWhileAborted(s', a', k - 1, rest);
      assert Commits(k, rest)[1..] == Commits(k - 1, rest);
    }
  }

  /**
   Reusing a live name loses the outer snapshot: fail inside, give up the inner transactions
   by committing them, and the outer rollback lands on the inner savepoint.
   */
  lemma ReusedNameBreaks<DB>(s: Session<DB>, a: Snapshots<DB>, i: nat, x: DB) returns (ops: seq<Op<DB>>)
    requires Simulates(s, a) && !a.aborted && NestedAt(s, i) && x != a.frames[i]
    ensures var s2 := AfterNest(s, x, s.live[i].value.name);
            && FreshRun(s2, ops) && AllowedRun(s2, ops)
            && Run(s2, ops).server.db == x
            && IdealRun(IdealAfterNest(a, x, s.live[i].value.name), ops).db == a.frames[i]
  {
    var name, k := s.live[i].value.name, |s.live| - i;
    var s2, a2 := AfterNest(s, x, name), IdealAfterNest(a, x, name);
    assert s2.server.stack == s.server.stack + [Entry(name, x)];
    assert a2.frames == a.frames + [x];
    var s3, a3 := Step(s2, Execute(None)), Ideal(a2, Execute(None));
    var s4, a4 := s3.(live := s3.live[..i + 1]), a3.(frames := a3.frames[..i + 1]);
    var undo: seq<Op<DB>> := [Rollback];
    assert undo[1..] == [];
    TopmostOfPush(s.server.stack, Entry(name, x), name);
    assert Last(s4.live) == s.live[i] && Last(a4.frames) == a.frames[i];
    var s5 := Step(s4, Rollback);
    assert s5.server.db == x;
    assert FreshRun(s4, undo) && AllowedRun(s4, undo) && Run(s4, undo) == s5;
    forall j | 0 < j < |s3.live| ensures s3.live[j].Some? {
      assert j < |s.live| ==> NestedAt(s, j);
    }
    CommitsWhileAborted(s3, a3, k, undo);
    ops := [Execute(None)] + Commits(k, undo);
    assert ops[1..] == Commits(k, undo);
    assert IdealRun(a4, undo) == Ideal(a4, Rollback);
  }

  /** A name is safe to nest under exactly when no live transaction has it. */
  lemma SafeToNestExactlyWhenFresh<DB(!new)>(s: Session<DB>, a: Snapshots<DB>, name: string, x: DB, y: DB)
    requires Simulates(s, a) && s.live != [] && !a.aborted && x != y
    ensures SafeToNest(s, a, name) <==> !LiveName(s, name)
  {
    if LiveName(s, name) {
      var i :| NestedAt(s, i) && s.live[i].value.name == name;
      var z := if x != a.frames[i] then x else y;
      var ops := ReusedNameBreaks(s, a, i, z);
    } else {
      forall z, ops | FreshRun(AfterNest(s, z, name), ops)
        ensures AllowedRun(AfterNest(s, z, name), ops)
        ensures Run(AfterNest(s, z, name), ops).server.db == IdealRun(IdealAfterNest(a, z, name), ops).db
      {
        var s1 := Step(s, Execute(Some(z)));
        StepSimulates(s, a, Execute(Some(z)));
        assert !LiveName(s1, name) by {
          forall i | NestedAt(s1, i) ensures s1.live[i].value.name != name {
            assert NestedAt(s, i);
          }
        }
        StepSimulates(s1, Ideal(a, Execute(Some(z))), Nest(Some(name)));
        RunSimulates(AfterNest(s, z, name), IdealAfterNest(a, z, name), ops);
      }
    }
  }

  // ---------------------------------------------------------------------------
  // The client objects
  // ---------------------------------------------------------------------------

  class Client<DB> {
    var server: Server<DB>

    constructor (s: Server<DB>)
      ensures server == s
    {
      server := s;
    }

    method BatchExecute(c: Command<DB>) returns (ok: bool)
      modifies this
      ensures (server, ok) == Respond(old(server), c)
    {
      var r := Respond(server, c);
      server, ok := r.0, r.1;
    }
  }

  class Transaction<DB> {
    const client: Client<DB>
    const savepoint: Option<Savepoint>
    var done: bool

    constructor (client: Client<DB>, savepoint: Option<Savepoint>)
      ensures this.client == client && this.savepoint == savepoint && !done
    {
      this.client, this.savepoint, done := client, savepoint, false;
    }

    /** `path` is the rest of the nesting path. */
    method Commit(ghost path: seq<Option<Savepoint>>) returns (ok: bool)
      modifies this, client
      ensures done
      ensures Session(client.server, path) == Step(Session(old(client.server), path + [savepoint]), Op.Commit)
      ensures ok == Answer(Session(old(client.server), path + [savepoint]), Op.Commit)
    {
      done := true;
      if savepoint.Some? {
        ok := client.BatchExecute(Release(savepoint.value.name));
      } else {
        ok := client.BatchExecute(CommitBlock);
      }
      assert Front(path + [savepoint]) == path;
    }

    method Rollback(ghost path: seq<Option<Savepoint>>) returns (ok: bool)
      modifies this, client
      ensures done
      ensures Session(client.server, path) == Step(Session(old(client.server), path + [savepoint]), Op.Rollback)
      ensures ok == Answer(Session(old(client.server), path + [savepoint]), Op.Rollback)
    {
      done := true;
      if savepoint.Some? {
        ok := client.BatchExecute(RollbackTo(savepoint.value.name));
      } else {
        ok := client.BatchExecute(RollbackBlock);
      }
      assert Front(path + [savepoint]) == path;
    }

    /** What running out of scope does: nothing after a commit or rollback. */
    method Drop(ghost path: seq<Option<Savepoint>>)
      modifies client
      ensures done ==> client.server == old(client.server)
      ensures !done ==> Session(client.server, path) == Step(Session(old(client.server), path + [savepoint]), Op.Drop)
    {
      if done {
        return;
      }
      assert Front(path + [savepoint]) == path;
      if savepoint.Some? {
        var _ := client.BatchExecute(RollbackTo(savepoint.value.name));
      } else {
        var _ := client.BatchExecute(RollbackBlock);
      }
    }

    method Nested(name: Option<string>, ghost path: seq<Option<Savepoint>>) returns (r: Option<Transaction<DB>>)
      modifies client
      ensures r.Some? <==> Answer(Session(old(client.server), path + [savepoint]), Nest(name))
      ensures r.Some? ==> fresh(r.value) && !r.value.done && r.value.client == client
      ensures Session(client.server, path + [savepoint] + (if r.Some? then [r.value.savepoint] else [])) ==
              Step(Session(old(client.server), path + [savepoint]), Nest(name))
    {
      var sp := Requested(savepoint, name);
      var ok := client.BatchExecute(SetSavepoint(sp.name));
      if !ok {
        return None;
      }
      var t := new Transaction<DB>(client, Some(sp));
      return Some(t);
    }
  }
}
