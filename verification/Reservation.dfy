// The reservation protocol of airlineCheckin/main.go: one transaction per user, all running at once.
//
// A transaction scans the rows in ascending id order with a locking read until it meets a NULL name,
// writes its user's name there and commits. Each database call is one atomic action; every interleaving
// of actions is a run. A scanned row that does not match is unlocked at once or kept locked until the
// end of the transaction, at the choice of the database.
module Reservation {
  import opened Modular
  import opened Options
  import opened Sums
  import opened SeatTable

  datatype Config = Config(ids: seq<int>, users: seq<string>)

  datatype Phase =
    | Idle                           // before Begin
    | Scanning(row: nat)             // the locking read is about to look at this row
    | Selected(emptySeatId: int)     // the id read, or 0
    | Updated(row: nat)              // the name is written but not committed
    | Finished(committed: bool)

  datatype Entry = Entry(user: nat, row: Option<nat>)

  datatype State = State(
    names: Names,                    // the committed name column
    owner: seq<Option<nat>>,         // who holds each row lock
    txs: seq<Phase>,                 // one transaction per user
    spawned: nat,                    // goroutines started so far
    waitGroup: int,
    log: seq<Entry>)                 // commits in order: the user and the row booked, if any

  datatype Action =
    | Spawn
    | Begin(t: nat)
    | ScanRow(t: nat, keepLock: bool)
    | ScanEnd(t: nat)
    | Update(t: nat)
    | Commit(t: nat)
    | Rollback(t: nat)

  ghost predicate Init(c: Config, names: Names, s: State) {
    && Ascending(c.ids) && |c.ids| == |names|
    && s == State(names, seq(|names|, _ => None), seq(|c.users|, _ => Idle), 0, 0, [])
  }

  // ---------------------------------------------------------------------------------------------
  // Actions
  // ---------------------------------------------------------------------------------------------

  predicate Shape(c: Config, s: State) {
    && |c.ids| == |s.names| == |s.owner|
    && |s.txs| == |c.users|
    && s.spawned <= |c.users|
  }

  /** The row an `update ... where id = ?` touches, or the number of rows when there is none. */
  function RowOf(ids: seq<int>, id: int): (r: nat)
    ensures r <= |ids|
    ensures r < |ids| ==> ids[r] == id
    ensures id in ids ==> r < |ids|
  {
    if ids == [] || ids[0] == id then 0 else 1 + RowOf(ids[1..], id)
  }

  predicate Free(s: State, row: nat, t: nat)
    requires row < |s.owner|
  {
    s.owner[row].None? || s.owner[row] == Some(t)
  }

  function Release(owner: seq<Option<nat>>, t: nat): (after: seq<Option<nat>>)
    ensures |after| == |owner|
    ensures forall r :: 0 <= r < |owner| ==> after[r] == if owner[r] == Some(t) then None else owner[r]
  {
    seq(|owner|, r requires 0 <= r < |owner| => if owner[r] == Some(t) then None else owner[r])
  }

  predicate Enabled(c: Config, s: State, a: Action) {
    && Shape(c, s)
    && match a
       case Spawn => s.spawned < |c.users|
       case Begin(t) => t < s.spawned && s.txs[t].Idle?
       case ScanRow(t, _) =>
         t < |s.txs| && s.txs[t].Scanning? && s.txs[t].row < |s.names| && Free(s, s.txs[t].row, t)
       case ScanEnd(t) => t < |s.txs| && s.txs[t] == Scanning(|s.names|)
       case Update(t) =>
         && t < |s.txs| && s.txs[t].Selected? && s.txs[t].emptySeatId != 0
         && var row := RowOf(c.ids, s.txs[t].emptySeatId); row < |c.ids| && Free(s, row, t)
       case Commit(t) => t < |s.txs| && (s.txs[t] == Selected(0) || (s.txs[t].Updated? && s.txs[t].row < |s.names|))
       case Rollback(t) => t < |s.txs| && (s.txs[t].Scanning? || s.txs[t].Selected? || s.txs[t].Updated?)
  }

  function Apply(c: Config, s: State, a: Action): (after: State)
    requires Enabled(c, s, a)
    ensures Shape(c, after)
  {
    match a
    case Spawn => s.(spawned := s.spawned + 1, waitGroup := s.waitGroup + 1)
    case Begin(t) => s.(txs := s.txs[t := Scanning(0)])
    case ScanRow(t, keepLock) =>
      var row := s.txs[t].row;
      if s.names[row].None? then
        s.(owner := s.owner[row := Some(t)], txs := s.txs[t := Selected(c.ids[row])])
      else
        s.(owner := s.owner[row := if keepLock then Some(t) else None], txs := s.txs[t := Scanning(row + 1)])
    case ScanEnd(t) => s.(txs := s.txs[t := Selected(0)])
    case Update(t) =>
      var row := RowOf(c.ids, s.txs[t].emptySeatId);
      s.(owner := s.owner[row := Some(t)], txs := s.txs[t := Updated(row)])
    case Commit(t) =>
      var written := if s.txs[t].Updated? then Some(s.txs[t].row) else None;
      s.(names := if written.Some? then s.names[written.value := Some(c.users[t])] else s.names,
         owner := Release(s.owner, t),
         txs := s.txs[t := Finished(true)],
         waitGroup := s.waitGroup - 1,
         log := s.log + [Entry(t, written)])
    case Rollback(t) =>
      s.(owner := Release(s.owner, t), txs := s.txs[t := Finished(false)], waitGroup := s.waitGroup - 1)
  }

  ghost predicate CanRun(c: Config, s: State, run: seq<Action>)
    decreases run
  {
    && Shape(c, s)
    && (run != [] ==> Enabled(c, s, run[0]) && CanRun(c, Apply(c, s, run[0]), run[1..]))
  }

  function Run(c: Config, s: State, run: seq<Action>): (after: State)
    requires CanRun(c, s, run)
    ensures Shape(c, after)
    decreases run
  {
    if run == [] then s else Run(c, Apply(c, s, run[0]), run[1..])
  }

  // ---------------------------------------------------------------------------------------------
  // The invariant
  // ---------------------------------------------------------------------------------------------

  /** What each transaction knows about the committed table. */
  ghost predicate TxInv(c: Config, s: State, t: nat)
    requires Shape(c, s) && t < |s.txs|
  {
    var first := FirstEmpty(s.names);
    && (t >= s.spawned ==> s.txs[t].Idle?)
    && match s.txs[t]
       case Scanning(row) => row <= first
       case Selected(id) =>
         if id == 0 then first < |s.names| ==> c.ids[first] == 0
         else first < |s.names| && c.ids[first] == id && s.owner[first] == Some(t)
       case Updated(row) => row == first < |s.names| && c.ids[first] != 0 && s.owner[first] == Some(t)
       case _ => true
  }

  /** A transaction in this phase may hold the lock of this row. */
  predicate MayHold(p: Phase, row: nat) {
    match p
    case Scanning(next) => row < next
    case Selected(_) => true
    case Updated(_) => true
    case _ => false
  }

  ghost predicate LockInv(s: State) {
    forall r :: 0 <= r < |s.owner| && s.owner[r].Some? ==>
      s.owner[r].value < |s.txs| && MayHold(s.txs[s.owner[r].value], r)
  }

  function Live(p: Phase): nat { if p.Finished? then 0 else 1 }

  function HasCommitted(p: Phase): nat { if p == Finished(true) then 1 else 0 }

  ghost predicate CountInv(c: Config, s: State) {
    && s.waitGroup == Sum(s.txs, Live) - (|c.users| - s.spawned)
    && |s.log| == Sum(s.txs, HasCommitted)
  }

  ghost predicate LogInv(s: State) {
    && (forall i :: 0 <= i < |s.log| ==> s.log[i].user < |s.txs| && s.txs[s.log[i].user] == Finished(true))
    && (forall i, j :: 0 <= i < j < |s.log| ==> s.log[i].user != s.log[j].user)
  }

  /** The names of the committed users, in commit order. */
  function Requests(users: seq<string>, log: seq<Entry>): (names: seq<string>)
    requires forall e <- log :: e.user < |users|
    ensures |names| == |log|
    ensures forall i :: 0 <= i < |log| ==> names[i] == users[log[i].user]
  {
    seq(|log|, i requires 0 <= i < |log| => users[log[i].user])
  }

  function Outcomes(log: seq<Entry>): (rows: seq<Option<nat>>)
    ensures |rows| == |log|
    ensures forall i :: 0 <= i < |log| ==> rows[i] == log[i].row
  {
    seq(|log|, i requires 0 <= i < |log| => log[i].row)
  }

  /** The committed table and every outcome are those of booking one user at a time in commit order. */
  ghost predicate Sequentialized(c: Config, names0: Names, s: State) {
    && |c.ids| == |names0|
    && (forall e <- s.log :: e.user < |c.users|)
    && SequentialById(c.ids, names0, Requests(c.users, s.log)) == Booking(s.names, Outcomes(s.log))
  }

  ghost predicate Inv(c: Config, names0: Names, s: State) {
    && Shape(c, s) && Ascending(c.ids)
    && (forall t :: 0 <= t < |s.txs| ==> TxInv(c, s, t))
    && LockInv(s) && CountInv(c, s) && LogInv(s)
    && Sequentialized(c, names0, s)
  }

  lemma {:induction false} InitInv(c: Config, names0: Names, s: State)
    requires Init(c, names0, s)
    ensures Inv(c, names0, s)
  {
    SumConstant(s.txs, Live, 1);
    SumConstant(s.txs, HasCommitted, 0);
  }

  // An action that leaves the names, and the lock of the first empty row while it is held, leaves the other
  // transactions what they know.
  lemma {:induction false} OthersKeepTxInv(c: Config, s: State, s': State, u: nat)
    requires Shape(c, s) && Shape(c, s') && u < |s.txs| && TxInv(c, s, u)
    requires s'.names == s.names && s'.spawned >= s.spawned && s'.txs[u] == s.txs[u]
    requires var first := FirstEmpty(s.names);
             first < |s.names| && s.owner[first] == Some(u) ==> s'.owner[first] == Some(u)
    ensures TxInv(c, s', u)
  {
  }

  lemma {:induction false} ScanTxInv(c: Config, names0: Names, s: State, t: nat, keepLock: bool, u: nat)
    requires Inv(c, names0, s) && Enabled(c, s, ScanRow(t, keepLock)) && u < |s.txs|
    ensures TxInv(c, Apply(c, s, ScanRow(t, keepLock)), u)
  {
    var s' := Apply(c, s, ScanRow(t, keepLock));
    var row, first := s.txs[t].row, FirstEmpty(s.names);
    assert TxInv(c, s, t) && TxInv(c, s, u);
    assert row <= first && (row == first <==> s.names[row].None?);
    if u != t {
      OthersKeepTxInv(c, s, s', u);
    }
  }

  lemma {:induction false} UpdateTxInv(c: Config, names0: Names, s: State, t: nat, u: nat)
    requires Inv(c, names0, s) && Enabled(c, s, Update(t)) && u < |s.txs|
    ensures TxInv(c, Apply(c, s, Update(t)), u)
  {
    var s' := Apply(c, s, Update(t));
    var row, first := RowOf(c.ids, s.txs[t].emptySeatId), FirstEmpty(s.names);
    assert TxInv(c, s, t) && TxInv(c, s, u);
    assert row == first && s.owner[first] == Some(t);
    if u != t {
      OthersKeepTxInv(c, s, s', u);
    }
  }

  // What is written is the first empty row, so only its own transaction knows that it is.
  lemma {:induction false} WriteTxInv(c: Config, names0: Names, s: State, t: nat, u: nat)
    requires Inv(c, names0, s) && Enabled(c, s, Commit(t)) && s.txs[t].Updated? && u < |s.txs| && u != t
    ensures TxInv(c, Apply(c, s, Commit(t)), u)
  {
    var s' := Apply(c, s, Commit(t));
    var first, next := FirstEmpty(s.names), FirstEmpty(s'.names);
    assert TxInv(c, s, t) && TxInv(c, s, u);
    assert s.owner[first] == Some(t) && c.ids[first] != 0;
    assert first < next;
    assert s'.txs[u] == s.txs[u];
  }

  lemma {:induction false} CommitTxInv(c: Config, names0: Names, s: State, t: nat, u: nat)
    requires Inv(c, names0, s) && Enabled(c, s, Commit(t)) && u < |s.txs|
    ensures TxInv(c, Apply(c, s, Commit(t)), u)
  {
    assert TxInv(c, s, t) && TxInv(c, s, u);
    if u != t {
      if s.txs[t].Updated? {
        WriteTxInv(c, names0, s, t, u);
      } else {
        OthersKeepTxInv(c, s, Apply(c, s, Commit(t)), u);
      }
    }
  }

  lemma {:induction false} StepTxInv(c: Config, names0: Names, s: State, a: Action, u: nat)
    requires Inv(c, names0, s) && Enabled(c, s, a) && u < |s.txs|
    ensures TxInv(c, Apply(c, s, a), u)
  {
    assert TxInv(c, s, u);
    match a
    case ScanRow(t, keepLock) => ScanTxInv(c, names0, s, t, keepLock, u);
    case Update(t) => UpdateTxInv(c, names0, s, t, u);
    case Commit(t) => CommitTxInv(c, names0, s, t, u);
    case Spawn => OthersKeepTxInv(c, s, Apply(c, s, a), u);
    case _ =>
      assert TxInv(c, s, a.t);
      if u != a.t {
        OthersKeepTxInv(c, s, Apply(c, s, a), u);
      }
  }

  lemma {:induction false} StepCountInv(c: Config, names0: Names, s: State, a: Action)
    requires Inv(c, names0, s) && Enabled(c, s, a)
    ensures CountInv(c, Apply(c, s, a))
  {
    if !a.Spawn? {
      SumUpdate(s.txs, a.t, Apply(c, s, a).txs[a.t], Live);
      SumUpdate(s.txs, a.t, Apply(c, s, a).txs[a.t], HasCommitted);
    }
  }

  lemma {:induction false} LogSnoc(users: seq<string>, log: seq<Entry>, e: Entry)
    requires forall x <- log + [e] :: x.user < |users|
    ensures e.user < |users| && forall x <- log :: x.user < |users|
    ensures Requests(users, log + [e]) == Requests(users, log) + [users[e.user]]
    ensures Outcomes(log + [e]) == Outcomes(log) + [e.row]
  {
    assert forall x <- log :: x in log + [e];
    assert e in log + [e];
  }

  // A commit is the next booking of the sequential run.
  lemma {:induction false} CommitSequentialized(c: Config, names0: Names, s: State, t: nat)
    requires Inv(c, names0, s) && Enabled(c, s, Commit(t))
    ensures Sequentialized(c, names0, Apply(c, s, Commit(t)))
  {
    assert TxInv(c, s, t);
    var s' := Apply(c, s, Commit(t));
    var reqs := Requests(c.users, s.log);
    var e := s'.log[|s.log|];
    assert s'.log == s.log + [e] && e.user == t;
    LogSnoc(c.users, s.log, e);
    assert (reqs + [c.users[t]])[..|reqs|] == reqs;
  }

  lemma {:induction false} StepSequentialized(c: Config, names0: Names, s: State, a: Action)
    requires Inv(c, names0, s) && Enabled(c, s, a)
    ensures Sequentialized(c, names0, Apply(c, s, a))
  {
    if a.Commit? {
      CommitSequentialized(c, names0, s, a.t);
    } else {
      assert Apply(c, s, a).log == s.log && Apply(c, s, a).names == s.names;
    }
  }

  // One more entry, of a transaction that had not finished.
  lemma {:induction false} LogGrows(s: State, s': State, t: nat, row: Option<nat>)
    requires LogInv(s) && t < |s.txs| && !s.txs[t].Finished?
    requires s'.txs == s.txs[t := Finished(true)] && s'.log == s.log + [Entry(t, row)]
    ensures LogInv(s')
  {
    forall i | 0 <= i < |s.log| ensures s.log[i].user != t {
      assert s.txs[s.log[i].user].Finished?;
    }
  }

  lemma {:induction false} StepLogInv(c: Config, names0: Names, s: State, a: Action)
    requires Inv(c, names0, s) && Enabled(c, s, a)
    ensures LogInv(Apply(c, s, a))
  {
    if a.Commit? {
      LogGrows(s, Apply(c, s, a), a.t, if s.txs[a.t].Updated? then Some(s.txs[a.t].row) else None);
    } else {
      assert Apply(c, s, a).log == s.log;
      forall i | 0 <= i < |s.log| ensures Apply(c, s, a).txs[s.log[i].user] == Finished(true) {
        assert s.txs[s.log[i].user] == Finished(true);
      }
    }
  }

  lemma {:induction false} StepInv(c: Config, names0: Names, s: State, a: Action)
    requires Inv(c, names0, s) && Enabled(c, s, a)
    ensures Inv(c, names0, Apply(c, s, a))
  {
    forall u | 0 <= u < |s.txs| ensures TxInv(c, Apply(c, s, a), u) {
      StepTxInv(c, names0, s, a, u);
    }
    StepCountInv(c, names0, s, a);
    StepLogInv(c, names0, s, a);
    StepSequentialized(c, names0, s, a);
  }

  lemma {:induction false} RunInv(c: Config, names0: Names, s: State, run: seq<Action>)
    requires Inv(c, names0, s) && CanRun(c, s, run)
    ensures Inv(c, names0, Run(c, s, run))
    decreases run
  {
    if run != [] {
      StepInv(c, names0, s, run[0]);
      RunInv(c, names0, Apply(c, s, run[0]), run[1..]);
    }
  }

  // ---------------------------------------------------------------------------------------------
  // Safety over whole runs
  // ---------------------------------------------------------------------------------------------

  /** Every run is a sequential booking in commit order, in the table and in what each user is told. */
  lemma {:induction false} EveryRunIsSequential(c: Config, names0: Names, s0: State, run: seq<Action>)
    requires Init(c, names0, s0) && CanRun(c, s0, run)
    ensures var s := Run(c, s0, run);
            && (forall e <- s.log :: e.user < |c.users|)
            && SequentialById(c.ids, names0, Requests(c.users, s.log)) == Booking(s.names, Outcomes(s.log))
    ensures var s := Run(c, s0, run);
            forall i, j :: 0 <= i < j < |s.log| ==> s.log[i].user != s.log[j].user
  {
    InitInv(c, names0, s0);
    RunInv(c, names0, s0, run);
  }

  /** The k-th commit books the k-th empty seat by id, and a commit books nothing only when all initially
      empty seats were given to earlier commits. */
  lemma {:induction false} KthCommitGetsKthEmptySeat(c: Config, names0: Names, s0: State, run: seq<Action>)
    requires Init(c, names0, s0) && CanRun(c, s0, run)
    requires NoEmptySeatHasIdZero(c.ids, names0)
    ensures var s := Run(c, s0, run);
            && (forall e <- s.log :: e.user < |c.users|)
            && KthUserInKthEmptyRow(names0, Requests(c.users, s.log), Booking(s.names, Outcomes(s.log)))
    ensures var s := Run(c, s0, run);
            && |s.names| == |names0|
            && forall i, j :: 0 <= i < j < |names0| && names0[j].None? && s.names[j].Some? ==> s.names[i].Some?
  {
    EveryRunIsSequential(c, names0, s0, run);
    var requests := Requests(c.users, Run(c, s0, run).log);
    ByIdIsIdeal(c.ids, names0, requests);
    SequentialClosedForm(names0, requests);
    SequentialFillsPrefix(names0, requests);
  }

  /** What a transaction is about to announce when it selected nothing, before it commits: all seats are booked.
      It is true in every run exactly when no initially empty seat has id 0. */
  lemma {:induction false} AllBookedIsTrueExactly(c: Config, names0: Names, s0: State, run: seq<Action>, t: nat)
    requires Init(c, names0, s0) && CanRun(c, s0, run)
    requires t < |c.users| && Run(c, s0, run).txs[t] == Selected(0)
    ensures (forall r :: 0 <= r < |names0| ==> Run(c, s0, run).names[r].Some?) <==> NoEmptySeatHasIdZero(c.ids, names0)
  {
    InitInv(c, names0, s0);
    RunInv(c, names0, s0, run);
    var s := Run(c, s0, run);
    assert TxInv(c, s, t);
    var requests := Requests(c.users, s.log);
    if NoEmptySeatHasIdZero(c.ids, names0) {
      ByIdIsIdeal(c.ids, names0, requests);
      assert FirstEmpty(s.names) == |s.names|;
    } else {
      var z :| 0 <= z < |names0| && c.ids[z] == 0 && names0[z].None?;
      ByIdNeverFillsIdZero(c.ids, names0, requests, z);
    }
  }

  /** A committed name stays: no continuation of a run overwrites it. */
  lemma {:induction false} CommittedNamesStay(c: Config, names0: Names, s0: State, run: seq<Action>, more: seq<Action>)
    requires Init(c, names0, s0) && CanRun(c, s0, run) && CanRun(c, Run(c, s0, run), more)
    ensures var s, after := Run(c, s0, run), Run(c, Run(c, s0, run), more).names;
            |after| == |s.names| && forall r :: 0 <= r < |s.names| && s.names[r].Some? ==> after[r] == s.names[r]
  {
    InitInv(c, names0, s0);
    RunInv(c, names0, s0, run);
    NamesStay(c, names0, Run(c, s0, run), more);
  }

  lemma {:induction false} NamesStay(c: Config, names0: Names, s: State, run: seq<Action>)
    requires Inv(c, names0, s) && CanRun(c, s, run)
    ensures var after := Run(c, s, run).names;
            |after| == |s.names| && forall r :: 0 <= r < |s.names| && s.names[r].Some? ==> after[r] == s.names[r]
    decreases run
  {
    if run != [] {
      StepKeepsNames(c, names0, s, run[0]);
      StepInv(c, names0, s, run[0]);
      NamesStay(c, names0, Apply(c, s, run[0]), run[1..]);
    }
  }

  lemma {:induction false} StepKeepsNames(c: Config, names0: Names, s: State, a: Action)
    requires Inv(c, names0, s) && Enabled(c, s, a)
    ensures forall r :: 0 <= r < |s.names| && s.names[r].Some? ==> Apply(c, s, a).names[r] == s.names[r]
  {
    if a.Commit? {
      assert TxInv(c, s, a.t);
    }
  }

  /** Two-phase locking: whatever happens, a row lock is given back exactly when its transaction commits or rolls
      back, and taken only by a locking read, for the row it selects or when the database keeps the lock. */
  lemma {:induction false} LocksHeldToTheEnd(c: Config, names0: Names, s: State, a: Action, t: nat, r: nat)
    requires Inv(c, names0, s) && Enabled(c, s, a) && r < |s.owner|
    ensures s.owner[r] == Some(t) ==>
              (Apply(c, s, a).owner[r] == Some(t) <==> !((a.Commit? || a.Rollback?) && a.t == t))
    ensures s.owner[r] != Some(t) ==>
              (Apply(c, s, a).owner[r] == Some(t)
               <==> a.ScanRow? && a.t == t && s.txs[t].row == r && (s.names[r].None? || a.keepLock))
  {
    if !a.Spawn? {
      assert TxInv(c, s, a.t);
    }
    if a.Update? {
      assert RowOf(c.ids, s.txs[a.t].emptySeatId) == FirstEmpty(s.names);
    }
  }

  /** A transaction can be rolled back from its first read until its end, and then leaves nothing behind: no lock,
      no name, no entry. */
  lemma {:induction false} RollbackLeavesNothing(c: Config, names0: Names, s: State, t: nat)
    requires Inv(c, names0, s) && t < |s.txs| && !s.txs[t].Idle? && !s.txs[t].Finished?
    ensures Enabled(c, s, Rollback(t))
    ensures var s' := Apply(c, s, Rollback(t));
            && s'.txs == s.txs[t := Finished(false)] && s'.names == s.names && s'.log == s.log
            && forall r :: 0 <= r < |s.owner| ==> s'.owner[r] == if s.owner[r] == Some(t) then None else s.owner[r]
  {
  }

  predicate HasSeat(p: Phase) {
    p.Updated? || (p.Selected? && p.emptySeatId != 0)
  }

  /** At any moment of any run at most one transaction has a seat selected. */
  lemma {:induction false} OneSelectionAtATime(c: Config, names0: Names, s0: State, run: seq<Action>, t: nat, u: nat)
    requires Init(c, names0, s0) && CanRun(c, s0, run)
    requires var s := Run(c, s0, run); t < |s.txs| && u < |s.txs| && HasSeat(s.txs[t]) && HasSeat(s.txs[u])
    ensures t == u
  {
    InitInv(c, names0, s0);
    RunInv(c, names0, s0, run);
    assert TxInv(c, Run(c, s0, run), t) && TxInv(c, Run(c, s0, run), u);
  }

  // ---------------------------------------------------------------------------------------------
  // No deadlock
  // ---------------------------------------------------------------------------------------------

  /** t asks for a row lock that u holds. */
  predicate WaitsFor(s: State, t: nat, u: nat) {
    && t < |s.txs| && s.txs[t].Scanning? && s.txs[t].row < |s.owner|
    && s.owner[s.txs[t].row] == Some(u) && u != t
  }

  ghost predicate WaitPath(s: State, path: seq<nat>) {
    forall i :: 0 <= i < |path| - 1 ==> WaitsFor(s, path[i], path[i + 1])
  }

  /** How far a transaction has come; a scan is at the row it is about to look at. */
  function Rank(s: State, t: nat): nat {
    if t < |s.txs| && s.txs[t].Scanning? then s.txs[t].row else |s.owner| + 1
  }

  // Locks are taken in ascending order: whoever waits is behind the holder.
  lemma {:induction false} RankGrowsAlongPath(c: Config, names0: Names, s: State, path: seq<nat>)
    requires Inv(c, names0, s) && WaitPath(s, path) && |path| >= 2
    ensures Rank(s, path[0]) < Rank(s, path[|path| - 1])
  {
    assert WaitsFor(s, path[0], path[1]);
    if |path| > 2 {
      var rest := path[1..];
      forall i | 0 <= i < |rest| - 1 ensures WaitsFor(s, rest[i], rest[i + 1]) {
        assert WaitsFor(s, path[i + 1], path[i + 2]);
      }
      RankGrowsAlongPath(c, names0, s, rest);
    }
  }

  /** In no reachable state do transactions wait for each other in a circle. */
  lemma {:induction false} NoWaitCycle(c: Config, names0: Names, s0: State, run: seq<Action>, path: seq<nat>)
    requires Init(c, names0, s0) && CanRun(c, s0, run)
    requires WaitPath(Run(c, s0, run), path) && |path| >= 2
    ensures path[0] != path[|path| - 1]
  {
    InitInv(c, names0, s0);
    RunInv(c, names0, s0, run);
    RankGrowsAlongPath(c, names0, Run(c, s0, run), path);
  }

  /** The update of the row found by the locking read never waits, and it finds its row. */
  lemma {:induction false} UpdateNeverBlocks(c: Config, names0: Names, s: State, t: nat)
    requires Inv(c, names0, s) && t < |s.txs| && s.txs[t].Selected? && s.txs[t].emptySeatId != 0
    ensures Enabled(c, s, Update(t))
  {
    assert TxInv(c, s, t);
    assert c.ids[FirstEmpty(s.names)] in c.ids;
    var row := RowOf(c.ids, s.txs[t].emptySeatId);
    assert row == FirstEmpty(s.names);
  }

  // ---------------------------------------------------------------------------------------------
  // Progress and termination
  // ---------------------------------------------------------------------------------------------

  predicate AllFinished(c: Config, s: State) {
    s.spawned == |c.users| && forall t :: 0 <= t < |s.txs| ==> s.txs[t].Finished?
  }

  // From a live transaction, follow the holders of the locks waited for to one that can move.
  lemma {:induction false} SomeoneCanMove(c: Config, names0: Names, s: State, t: nat) returns (a: Action)
    requires Inv(c, names0, s) && t < s.spawned && !s.txs[t].Finished?
    ensures Enabled(c, s, a) && !a.Rollback? && !a.Spawn?
    decreases |s.owner| + 1 - Rank(s, t)
  {
    assert TxInv(c, s, t);
    match s.txs[t]
    case Idle => a := Begin(t);
    case Scanning(row) =>
      if row == |s.names| {
        a := ScanEnd(t);
      } else if Free(s, row, t) {
        a := ScanRow(t, false);
      } else {
        var u := s.owner[row].value;
        assert TxInv(c, s, u);
        a := SomeoneCanMove(c, names0, s, u);
      }
    case Selected(id) =>
      if id == 0 {
        a := Commit(t);
      } else {
        UpdateNeverBlocks(c, names0, s, t);
        a := Update(t);
      }
    case Updated(_) => a := Commit(t);
  }

  /** Until everybody has finished some action other than a rollback is possible. */
  lemma {:induction false} NeverStuck(c: Config, names0: Names, s0: State, run: seq<Action>)
    requires Init(c, names0, s0) && CanRun(c, s0, run)
    ensures var s := Run(c, s0, run);
            AllFinished(c, s) || exists a :: Enabled(c, s, a) && !a.Rollback?
  {
    InitInv(c, names0, s0);
    RunInv(c, names0, s0, run);
    var s := Run(c, s0, run);
    if s.spawned < |c.users| {
      assert Enabled(c, s, Spawn);
    } else if !AllFinished(c, s) {
      var t :| 0 <= t < |s.txs| && !s.txs[t].Finished?;
      var a := SomeoneCanMove(c, names0, s, t);
    }
  }

  function StepsLeft(rows: nat, p: Phase): nat {
    match p
    case Idle => rows + 4
    case Scanning(row) => if row <= rows then rows - row + 3 else 3
    case Selected(_) => 2
    case Updated(_) => 1
    case Finished(_) => 0
  }

  function Left(rows: nat): Phase -> nat {
    p => StepsLeft(rows, p)
  }

  function Measure(c: Config, s: State): nat
    requires Shape(c, s)
  {
    Sum(s.txs, Left(|c.ids|)) + |c.users| - s.spawned
  }

  lemma {:induction false} StepDecreasesMeasure(c: Config, s: State, a: Action)
    requires Enabled(c, s, a)
    ensures Measure(c, Apply(c, s, a)) < Measure(c, s)
  {
    if !a.Spawn? {
      SumUpdate(s.txs, a.t, Apply(c, s, a).txs[a.t], Left(|c.ids|));
    }
  }

  lemma {:induction false} RunIsBounded(c: Config, s: State, run: seq<Action>)
    requires CanRun(c, s, run)
    ensures |run| + Measure(c, Run(c, s, run)) <= Measure(c, s)
    decreases run
  {
    if run != [] {
      StepDecreasesMeasure(c, s, run[0]);
      RunIsBounded(c, Apply(c, s, run[0]), run[1..]);
    }
  }

  /** No run is longer than this, whatever the interleaving and the rollbacks. */
  lemma {:induction false} EveryRunEnds(c: Config, names0: Names, s0: State, run: seq<Action>)
    requires Init(c, names0, s0) && CanRun(c, s0, run)
    ensures |run| <= |c.users| * (|c.ids| + 4) + |c.users|
  {
    RunIsBounded(c, s0, run);
    SumConstant(s0.txs, Left(|c.ids|), |c.ids| + 4);
  }

  /** With every goroutine started, the wait group is released exactly when everyone has finished. */
  lemma {:induction false} WaitReleasedExactlyWhenAllFinished(c: Config, names0: Names, s0: State, run: seq<Action>)
    requires Init(c, names0, s0) && CanRun(c, s0, run)
    requires Run(c, s0, run).spawned == |c.users|
    ensures Run(c, s0, run).waitGroup == 0 <==> AllFinished(c, Run(c, s0, run))
  {
    InitInv(c, names0, s0);
    RunInv(c, names0, s0, run);
    var s := Run(c, s0, run);
    if AllFinished(c, s) {
      SumConstant(s.txs, Live, 0);
    } else {
      var t :| 0 <= t < |s.txs| && !s.txs[t].Finished?;
      SumAtLeast(s.txs, t, Live);
    }
  }

  /** When all workers finish without rollback, exactly min(users, initially empty seats) are booked. */
  lemma {:induction false} FinalCount(c: Config, names0: Names, s0: State, run: seq<Action>)
    requires Init(c, names0, s0) && CanRun(c, s0, run)
    requires NoEmptySeatHasIdZero(c.ids, names0)
    requires AllFinished(c, Run(c, s0, run)) && Finished(false) !in Run(c, s0, run).txs
    ensures var s := Run(c, s0, run);
            && |s.log| == |c.users|
            && |EmptyRows(names0)| - |EmptyRows(s.names)| == Min(|c.users|, |EmptyRows(names0)|)
  {
    InitInv(c, names0, s0);
    RunInv(c, names0, s0, run);
    KthCommitGetsKthEmptySeat(c, names0, s0, run);
    SumConstant(Run(c, s0, run).txs, HasCommitted, 1);
  }
}
