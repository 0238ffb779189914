// The connection pool of connectionPool/temp.go: the connections themselves travel through a buffered
// channel. Get receives, Put sends, and each is one atomic action.
module ChannelPool {
  import opened Sums

  datatype Worker<T> = Waiting | Holding(conn: T) | Finished

  /** `taken` and `returned` record, in order, everything ever received and sent. */
  datatype Pool<T> = Pool(
    capacity: nat,
    free: seq<T>,
    workers: seq<Worker<T>>,
    taken: seq<T>,
    returned: seq<T>)

  datatype Action = Receive(w: nat) | Send(w: nat)

  function InitialPool<T>(conns: seq<T>, workers: nat): Pool<T> {
    Pool(|conns|, conns, seq(workers, _ => Waiting), [], [])
  }

  predicate Enabled<T>(p: Pool<T>, a: Action) {
    match a
    case Receive(w) => w < |p.workers| && p.workers[w].Waiting? && p.free != []
    case Send(w) => w < |p.workers| && p.workers[w].Holding? && |p.free| < p.capacity
  }

  function Apply<T>(p: Pool<T>, a: Action): Pool<T>
    requires Enabled(p, a)
  {
    match a
    case Receive(w) =>
      p.(free := p.free[1..], workers := p.workers[w := Holding(p.free[0])], taken := p.taken + [p.free[0]])
    case Send(w) =>
      var conn := p.workers[w].conn;
      p.(free := p.free + [conn], workers := p.workers[w := Finished], returned := p.returned + [conn])
  }

  ghost predicate CanRun<T>(p: Pool<T>, run: seq<Action>)
    decreases run
  {
    run != [] ==> Enabled(p, run[0]) && CanRun(Apply(p, run[0]), run[1..])
  }

  function Run<T>(p: Pool<T>, run: seq<Action>): Pool<T>
    requires CanRun(p, run)
    decreases run
  {
    if run == [] then p else Run(Apply(p, run[0]), run[1..])
  }

  // ---------------------------------------------------------------------------------------------
  // Conservation
  // ---------------------------------------------------------------------------------------------

  function IsHolding<T>(w: Worker<T>): nat { if w.Holding? then 1 else 0 }

  /** 1 for a worker that holds conn. */
  function HasConn<T(==)>(conn: T): Worker<T> -> nat {
    (w: Worker<T>) => if w.Holding? && w.conn == conn then 1 else 0
  }

  /** How many times conn is in the hands of workers. */
  function Held<T(==)>(workers: seq<Worker<T>>, conn: T): nat {
    Sum(workers, HasConn(conn))
  }

  /** Every connection is in the pool or in some hand as often as it was created. */
  ghost predicate Conserved<T(!new)>(conns: seq<T>, p: Pool<T>) {
    forall conn :: multiset(p.free)[conn] + Held(p.workers, conn) == multiset(conns)[conn]
  }

  ghost predicate Inv<T(!new)>(conns: seq<T>, p: Pool<T>) {
    && p.capacity == |conns|
    && |p.free| + Sum(p.workers, IsHolding) == p.capacity
    && Conserved(conns, p)
    && p.taken + p.free == conns + p.returned
  }

  lemma {:induction false} InitInv<T(!new)>(conns: seq<T>, n: nat)
    ensures Inv(conns, InitialPool(conns, n))
  {
    var p := InitialPool(conns, n);
    SumConstant(p.workers, IsHolding, 0);
    forall conn ensures Held(p.workers, conn) == 0 {
      SumConstant(p.workers, HasConn(conn), 0);
    }
  }

  lemma {:induction false} StepConserves<T>(p: Pool<T>, a: Action, conn: T)
    requires Enabled(p, a)
    ensures multiset(Apply(p, a).free)[conn] + Held(Apply(p, a).workers, conn)
         == multiset(p.free)[conn] + Held(p.workers, conn)
  {
    var q := Apply(p, a);
    SumUpdate(p.workers, a.w, q.workers[a.w], HasConn(conn));
    if a.Receive? {
      assert p.free == [p.free[0]] + p.free[1..];
      assert multiset(p.free)[conn] == multiset([p.free[0]])[conn] + multiset(q.free)[conn];
    } else {
      assert multiset(q.free)[conn] == multiset(p.free)[conn] + multiset([p.workers[a.w].conn])[conn];
    }
  }

  lemma {:induction false} StepInOrder<T>(p: Pool<T>, a: Action)
    requires Enabled(p, a)
    ensures var q := Apply(p, a);
            if a.Receive? then q.taken + q.free == p.taken + p.free && q.returned == p.returned
            else exists conn :: q.taken + q.free == (p.taken + p.free) + [conn] && q.returned == p.returned + [conn]
  {
    var q := Apply(p, a);
    if a.Receive? {
      assert p.free == [p.free[0]] + p.free[1..];
    } else {
      var conn := p.workers[a.w].conn;
      assert q.taken + q.free == (p.taken + p.free) + [conn];
    }
  }

  lemma {:induction false} StepInv<T(!new)>(conns: seq<T>, p: Pool<T>, a: Action)
    requires Inv(conns, p) && Enabled(p, a)
    ensures Inv(conns, Apply(p, a))
  {
    SumUpdate(p.workers, a.w, Apply(p, a).workers[a.w], IsHolding);
    forall conn ensures multiset(Apply(p, a).free)[conn] + Held(Apply(p, a).workers, conn) == multiset(conns)[conn] {
      StepConserves(p, a, conn);
    }
    StepInOrder(p, a);
    if a.Send? {
      assert conns + (p.returned + [p.workers[a.w].conn]) == (conns + p.returned) + [p.workers[a.w].conn];
    }
  }

  lemma {:induction false} RunInv<T(!new)>(conns: seq<T>, p: Pool<T>, run: seq<Action>)
    requires Inv(conns, p) && CanRun(p, run)
    ensures Inv(conns, Run(p, run))
    decreases run
  {
    if run != [] {
      StepInv(conns, p, run[0]);
      RunInv(conns, Apply(p, run[0]), run[1..]);
    }
  }

  /** Nothing is lost or duplicated, and connections leave in the order they entered. */
  lemma {:induction false} NothingLost<T(!new)>(conns: seq<T>, n: nat, run: seq<Action>)
    requires CanRun(InitialPool(conns, n), run)
    ensures var p := Run(InitialPool(conns, n), run);
            && Conserved(conns, p)
            && p.taken + p.free == conns + p.returned
  {
    InitInv(conns, n);
    RunInv(conns, InitialPool(conns, n), run);
  }

  ghost predicate Distinct<T>(s: seq<T>) {
    forall i, j :: 0 <= i < j < |s| ==> s[i] != s[j]
  }

  lemma {:induction false} DistinctMultiplicity<T>(s: seq<T>, x: T)
    requires Distinct(s)
    ensures multiset(s)[x] <= 1
  {
    if s != [] {
      assert s == [s[0]] + s[1..];
      DistinctMultiplicity(s[1..], x);
    }
  }

  /** Distinct connections: whoever holds one, it is not in the pool. */
  lemma {:induction false} HeldIsNotFree<T(!new)>(conns: seq<T>, p: Pool<T>, w: nat)
    requires Inv(conns, p) && Distinct(conns) && w < |p.workers| && p.workers[w].Holding?
    ensures p.workers[w].conn !in p.free
  {
    var conn := p.workers[w].conn;
    DistinctMultiplicity(conns, conn);
    SumAtLeast(p.workers, w, HasConn(conn));
    assert multiset(p.free)[conn] + Held(p.workers, conn) <= 1;
  }

  /** Distinct connections: no two workers hold the same. */
  lemma {:induction false} NotTwice<T(!new)>(conns: seq<T>, p: Pool<T>, u: nat, v: nat)
    requires Inv(conns, p) && Distinct(conns)
    requires u < v < |p.workers| && p.workers[u].Holding? && p.workers[v].Holding?
    ensures p.workers[u].conn != p.workers[v].conn
  {
    var conn := p.workers[u].conn;
    DistinctMultiplicity(conns, conn);
    SumAtLeastTwo(p.workers, u, v, HasConn(conn));
    assert multiset(p.free)[conn] + Held(p.workers, conn) <= 1;
  }

  /** Every connection is in one place only: a held one is not in the pool and in no other hand. */
  ghost predicate InOnePlace<T>(p: Pool<T>) {
    && (forall w :: 0 <= w < |p.workers| && p.workers[w].Holding? ==> p.workers[w].conn !in p.free)
    && (forall u, v :: 0 <= u < v < |p.workers| && p.workers[u].Holding? && p.workers[v].Holding? ==>
          p.workers[u].conn != p.workers[v].conn)
  }

  /** With distinct connections, in every run a held one is not in the pool and in no other hand. */
  lemma {:induction false} Exclusive<T(!new)>(conns: seq<T>, n: nat, run: seq<Action>)
    requires Distinct(conns) && CanRun(InitialPool(conns, n), run)
    ensures InOnePlace(Run(InitialPool(conns, n), run))
  {
    InitInv(conns, n);
    RunInv(conns, InitialPool(conns, n), run);
    var p := Run(InitialPool(conns, n), run);
    forall w | 0 <= w < |p.workers| && p.workers[w].Holding? ensures p.workers[w].conn !in p.free {
      HeldIsNotFree(conns, p, w);
    }
    forall u, v | 0 <= u < v < |p.workers| && p.workers[u].Holding? && p.workers[v].Holding?
      ensures p.workers[u].conn != p.workers[v].conn
    {
      NotTwice(conns, p, u, v);
    }
  }

  /** The channel has room for whoever wants to return a connection. */
  lemma {:induction false} SendNeverBlocks<T(!new)>(conns: seq<T>, p: Pool<T>, w: nat)
    requires Inv(conns, p) && w < |p.workers| && p.workers[w].Holding?
    ensures Enabled(p, Send(w))
  {
    SumAtLeast(p.workers, w, IsHolding);
  }

  lemma {:induction false} BoundedHolders<T(!new)>(conns: seq<T>, n: nat, run: seq<Action>)
    requires CanRun(InitialPool(conns, n), run)
    ensures Sum(Run(InitialPool(conns, n), run).workers, IsHolding) <= |conns|
  {
    InitInv(conns, n);
    RunInv(conns, InitialPool(conns, n), run);
  }

  // ---------------------------------------------------------------------------------------------
  // Progress and termination
  // ---------------------------------------------------------------------------------------------

  function StepsLeft<T>(w: Worker<T>): nat {
    match w case Waiting => 2 case Holding(_) => 1 case Finished => 0
  }

  lemma {:induction false} StepDecreases<T>(p: Pool<T>, a: Action)
    requires Enabled(p, a)
    ensures Sum(Apply(p, a).workers, StepsLeft) < Sum(p.workers, StepsLeft)
  {
    SumUpdate(p.workers, a.w, Apply(p, a).workers[a.w], StepsLeft);
  }

  lemma {:induction false} RunIsBounded<T>(p: Pool<T>, run: seq<Action>)
    requires CanRun(p, run)
    ensures |run| + Sum(Run(p, run).workers, StepsLeft) <= Sum(p.workers, StepsLeft)
    decreases run
  {
    if run != [] {
      StepDecreases(p, run[0]);
      RunIsBounded(Apply(p, run[0]), run[1..]);
    }
  }

  /** With at least one connection a run can always go on until every worker has finished, and it
      does not go on for ever. */
  lemma {:induction false} EveryoneFinishes<T(!new)>(conns: seq<T>, n: nat, run: seq<Action>)
    requires conns != [] && CanRun(InitialPool(conns, n), run)
    ensures |run| <= 2 * n
    ensures var p := Run(InitialPool(conns, n), run);
            (forall w <- p.workers :: w.Finished?) || exists a :: Enabled(p, a)
  {
    InitInv(conns, n);
    RunInv(conns, InitialPool(conns, n), run);
    RunIsBounded(InitialPool(conns, n), run);
    SumConstant(InitialPool(conns, n).workers, StepsLeft, 2);
    var p := Run(InitialPool(conns, n), run);
    if exists w <- p.workers :: !w.Finished? {
      var w :| 0 <= w < |p.workers| && !p.workers[w].Finished?;
      if p.workers[w].Holding? {
        SendNeverBlocks(conns, p, w);
      } else if p.free != [] {
        assert Enabled(p, Receive(w));
      } else {
        var h := SumPositive(p.workers, IsHolding);
        SendNeverBlocks(conns, p, h);
      }
    }
  }

  // ---------------------------------------------------------------------------------------------
  // The functions of the program, run without interference
  // ---------------------------------------------------------------------------------------------

  class ConnectionPool<T> {
    const maxConn: nat
    var ch: seq<T>

    ghost predicate Valid()
      reads this
    {
      |ch| <= maxConn
    }

    /** `newConns` stands for the connections that newConn opens, one per round of the loop. */
    constructor (maxCon: nat, newConns: seq<T>)
      requires |newConns| == maxCon
      ensures Valid() && maxConn == maxCon && ch == newConns
    {
      maxConn := maxCon;
      ch := [];
      new;
      for i := 0 to maxCon
        invariant ch == newConns[..i]
      {
        ch := ch + [newConns[i]];
      }
    }

    /** Blocks on an empty channel, so it completes only when there is a connection. */
    method Get() returns (db: T)
      requires Valid() && ch != []
      modifies this`ch
      ensures Valid() && old(ch) == [db] + ch
    {
      db := ch[0];
      ch := ch[1..];
    }

    /** Blocks on a full channel, so it completes only when there is room. */
    method Put(db: T)
      requires Valid() && |ch| < maxConn
      modifies this`ch
      ensures Valid() && ch == old(ch) + [db]
    {
      ch := ch + [db];
    }
  }
}
