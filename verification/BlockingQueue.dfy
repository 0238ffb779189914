// The blocking queue of blockingQ/main.go: a channel of tokens says how many objects the queue has, a
// mutex guards the slice that holds them. Every channel operation, lock, unlock, read of the head,
// re-slice and append is an atomic action of its own, so workers interleave between any two of them.
//
// Get and Put are modelled with the one shared queue they are written for (pointer receivers); what the
// value receivers of the source do instead is in module ValueReceiver.
module BlockingQueue {
  import opened Options
  import opened Sums
  import C = ChannelPool

  datatype Phase<T> =
    | Starting               // Get not called
    | HasToken               // received from ch
    | Inside                 // holds mu, in Get
    | HasRead(ob: T)         // ret = Q[0]
    | Popped(ob: T)          // Q = Q[1:]
    | Holding(ob: T)         // mu released, Get returned
    | Returning(ob: T)       // holds mu, in Put
    | Appended               // Q = append(Q, ob)
    | Unlocked               // mu released, about to send
    | Finished
    | Crashed                // index or slice out of range

  datatype State<T> = State(
    size: nat,
    tokens: nat,             // tokens in the buffer of ch
    queue: seq<T>,
    mu: Option<nat>,         // the worker inside the mutex
    workers: seq<Phase<T>>,
    taken: seq<T>,           // everything popped, in order
    returned: seq<T>)        // everything appended by Put, in order

  datatype Action =
    | TakeToken(w: nat)
    | LockGet(w: nat)
    | ReadHead(w: nat)
    | DropHead(w: nat)
    | UnlockGet(w: nat)
    | LockPut(w: nat)
    | Append(w: nat)
    | UnlockPut(w: nat)
    | SendToken(w: nat)

  function InitialState<T>(objs: seq<T>, workers: nat): State<T> {
    State(|objs|, |objs|, objs, None, seq(workers, _ => Starting), [], [])
  }

  predicate Enabled<T>(s: State<T>, a: Action) {
    && a.w < |s.workers|
    && var p := s.workers[a.w];
       match a
       case TakeToken(_) => p.Starting? && s.tokens > 0
       case LockGet(_) => p.HasToken? && s.mu.None?
       case ReadHead(_) => p.Inside?
       case DropHead(_) => p.HasRead?
       case UnlockGet(_) => p.Popped?
       case LockPut(_) => p.Holding? && s.mu.None?
       case Append(_) => p.Returning?
       case UnlockPut(_) => p.Appended?
       case SendToken(_) => p.Unlocked? && s.tokens < s.size
  }

  function Apply<T>(s: State<T>, a: Action): State<T>
    requires Enabled(s, a)
  {
    var p := s.workers[a.w];
    match a
    case TakeToken(w) => s.(tokens := s.tokens - 1, workers := s.workers[w := HasToken])
    case LockGet(w) => s.(mu := Some(w), workers := s.workers[w := Inside])
    case ReadHead(w) =>
      s.(workers := s.workers[w := if s.queue == [] then Crashed else HasRead(s.queue[0])])
    case DropHead(w) =>
      if s.queue == [] then s.(workers := s.workers[w := Crashed])
      else s.(queue := s.queue[1..], workers := s.workers[w := Popped(p.ob)], taken := s.taken + [s.queue[0]])
    case UnlockGet(w) => s.(mu := None, workers := s.workers[w := Holding(p.ob)])
    case LockPut(w) => s.(mu := Some(w), workers := s.workers[w := Returning(p.ob)])
    case Append(w) =>
      s.(queue := s.queue + [p.ob], workers := s.workers[w := Appended], returned := s.returned + [p.ob])
    case UnlockPut(w) => s.(mu := None, workers := s.workers[w := Unlocked])
    case SendToken(w) => s.(tokens := s.tokens + 1, workers := s.workers[w := Finished])
  }

  ghost predicate CanRun<T>(s: State<T>, run: seq<Action>)
    decreases run
  {
    run != [] ==> Enabled(s, run[0]) && CanRun(Apply(s, run[0]), run[1..])
  }

  function Run<T>(s: State<T>, run: seq<Action>): State<T>
    requires CanRun(s, run)
    decreases run
  {
    if run == [] then s else Run(Apply(s, run[0]), run[1..])
  }

  // ---------------------------------------------------------------------------------------------
  // The invariant: two counts and the mutex
  // ---------------------------------------------------------------------------------------------

  predicate InMutex<T>(p: Phase<T>) {
    p.Inside? || p.HasRead? || p.Popped? || p.Returning? || p.Appended?
  }

  function HoldsToken<T>(p: Phase<T>): nat {
    if p.Starting? || p.Finished? || p.Crashed? then 0 else 1
  }

  function HasObject<T>(p: Phase<T>): nat {
    if p.Popped? || p.Holding? || p.Returning? then 1 else 0
  }

  ghost predicate Inv<T>(s: State<T>) {
    && s.tokens + Sum(s.workers, HoldsToken) == s.size
    && |s.queue| + Sum(s.workers, HasObject) == s.size
    && MutexInv(s) && HeadInv(s)
    && (s.mu.Some? ==> s.mu.value < |s.workers|)
    && (forall w :: 0 <= w < |s.workers| ==> !s.workers[w].Crashed?)
  }

  ghost predicate MutexInv<T>(s: State<T>) {
    forall w :: 0 <= w < |s.workers| ==> (InMutex(s.workers[w]) <==> s.mu == Some(w))
  }

  /** What was read at the head is still there. */
  ghost predicate HeadInv<T>(s: State<T>) {
    forall w :: 0 <= w < |s.workers| && s.workers[w].HasRead? ==> s.queue != [] && s.workers[w].ob == s.queue[0]
  }

  lemma {:induction false} InitInv<T>(objs: seq<T>, n: nat)
    ensures Inv(InitialState(objs, n))
  {
    SumConstant(InitialState(objs, n).workers, HoldsToken, 0);
    SumConstant(InitialState(objs, n).workers, HasObject, 0);
  }

  // Whoever holds a token without an object finds the queue nonempty.
  lemma {:induction false} TokenMeansObject<T>(s: State<T>, w: nat)
    requires Inv(s) && w < |s.workers|
    requires HoldsToken(s.workers[w]) == 1 && HasObject(s.workers[w]) == 0
    ensures s.queue != []
  {
    SumStrictlyDominated(s.workers, w, HasObject, HoldsToken);
  }

  lemma {:induction false} StepCounts<T>(s: State<T>, a: Action)
    requires Inv(s) && Enabled(s, a)
    ensures var t := Apply(s, a);
            && t.tokens + Sum(t.workers, HoldsToken) == t.size
            && |t.queue| + Sum(t.workers, HasObject) == t.size
            && !t.workers[a.w].Crashed?
  {
    if a.ReadHead? {
      TokenMeansObject(s, a.w);
    }
    SumUpdate(s.workers, a.w, Apply(s, a).workers[a.w], HoldsToken);
    SumUpdate(s.workers, a.w, Apply(s, a).workers[a.w], HasObject);
  }

  lemma {:induction false} StepLocked<T>(s: State<T>, a: Action)
    requires MutexInv(s) && HeadInv(s) && Enabled(s, a) && !Apply(s, a).workers[a.w].Crashed?
    ensures MutexInv(Apply(s, a)) && HeadInv(Apply(s, a))
  {
    var t := Apply(s, a);
    forall w | 0 <= w < |t.workers| && t.workers[w].HasRead?
      ensures t.queue != [] && t.workers[w].ob == t.queue[0]
    {
      assert t.queue != s.queue ==> s.mu == Some(a.w);
    }
  }

  lemma {:induction false} StepInv<T>(s: State<T>, a: Action)
    requires Inv(s) && Enabled(s, a)
    ensures Inv(Apply(s, a))
  {
    StepCounts(s, a);
    StepLocked(s, a);
    assert Apply(s, a).workers == s.workers[a.w := Apply(s, a).workers[a.w]];
  }

  lemma {:induction false} RunInv<T>(s: State<T>, run: seq<Action>)
    requires Inv(s) && CanRun(s, run)
    ensures Inv(Run(s, run))
    decreases run
  {
    if run != [] {
      StepInv(s, run[0]);
      RunInv(Apply(s, run[0]), run[1..]);
    }
  }

  /** Q[0] and Q[1:] are in bounds whenever they are evaluated, in every interleaving. */
  lemma {:induction false} NeverCrashes<T>(objs: seq<T>, n: nat, run: seq<Action>)
    requires CanRun(InitialState(objs, n), run)
    ensures forall w <- Run(InitialState(objs, n), run).workers :: !w.Crashed?
  {
    InitInv(objs, n);
    RunInv(InitialState(objs, n), run);
  }

  /** At most one worker is between Lock and Unlock. */
  lemma {:induction false} MutualExclusion<T>(s: State<T>, u: nat, v: nat)
    requires Inv(s) && u < |s.workers| && v < |s.workers|
    requires InMutex(s.workers[u]) && InMutex(s.workers[v])
    ensures u == v
  {
    assert s.mu == Some(u) && s.mu == Some(v);
  }

  /** At most `size` workers are between receiving a token and sending it back. */
  lemma {:induction false} BoundedTokens<T>(objs: seq<T>, n: nat, run: seq<Action>)
    requires CanRun(InitialState(objs, n), run)
    ensures Sum(Run(InitialState(objs, n), run).workers, HoldsToken) <= |objs|
  {
    InitInv(objs, n);
    RunInv(InitialState(objs, n), run);
    SizeIsConstant(InitialState(objs, n), run);
  }

  lemma {:induction false} SizeIsConstant<T>(s: State<T>, run: seq<Action>)
    requires CanRun(s, run)
    ensures Run(s, run).size == s.size
    decreases run
  {
    if run != [] {
      SizeIsConstant(Apply(s, run[0]), run[1..]);
    }
  }

  /** The send at the end of Put finds room in the channel. */
  lemma {:induction false} SendNeverBlocks<T>(s: State<T>, w: nat)
    requires Inv(s) && w < |s.workers| && s.workers[w].Unlocked?
    ensures Enabled(s, SendToken(w))
  {
    SumAtLeast(s.workers, w, HoldsToken);
  }

  // ---------------------------------------------------------------------------------------------
  // Refinement of the channel pool
  // ---------------------------------------------------------------------------------------------

  /** A worker of the channel pool: it gets its object when the queue drops it, and gives it back when
      it is appended. */
  function AbstractWorker<T>(p: Phase<T>): C.Worker<T> {
    match p
    case Popped(ob) => C.Holding(ob)
    case Holding(ob) => C.Holding(ob)
    case Returning(ob) => C.Holding(ob)
    case Appended => C.Finished
    case Unlocked => C.Finished
    case Finished => C.Finished
    case _ => C.Waiting
  }

  function AbstractWorkers<T>(ps: seq<Phase<T>>): (ws: seq<C.Worker<T>>)
    ensures |ws| == |ps|
    ensures forall w :: 0 <= w < |ps| ==> ws[w] == AbstractWorker(ps[w])
  {
    seq(|ps|, w requires 0 <= w < |ps| => AbstractWorker(ps[w]))
  }

  function Abstract<T>(s: State<T>): C.Pool<T> {
    C.Pool(s.size, s.queue, AbstractWorkers(s.workers), s.taken, s.returned)
  }

  function AbstractAction(a: Action): Option<C.Action> {
    match a
    case DropHead(w) => Some(C.Receive(w))
    case Append(w) => Some(C.Send(w))
    case _ => None
  }

  function AbstractRun(run: seq<Action>): seq<C.Action> {
    if run == [] then []
    else
      var rest := AbstractRun(run[1..]);
      match AbstractAction(run[0]) case Some(a) => [a] + rest case None => rest
  }

  /** Each action is one action of the channel pool or invisible to it. */
  lemma {:induction false} StepSimulates<T>(s: State<T>, a: Action)
    requires Inv(s) && Enabled(s, a)
    ensures match AbstractAction(a)
            case Some(b) => C.Enabled(Abstract(s), b) && C.Apply(Abstract(s), b) == Abstract(Apply(s, a))
            case None => Abstract(Apply(s, a)) == Abstract(s)
  {
    StepWorker(s, a);
    if a.Append? {
      SumAtLeast(s.workers, a.w, HasObject);
    }
  }

  lemma {:induction false} StepWorker<T>(s: State<T>, a: Action)
    requires Inv(s) && Enabled(s, a)
    ensures var t := Apply(s, a);
            AbstractWorkers(t.workers) == AbstractWorkers(s.workers)[a.w := AbstractWorker(t.workers[a.w])]
    ensures AbstractAction(a).None? ==>
              AbstractWorker(Apply(s, a).workers[a.w]) == AbstractWorker(s.workers[a.w])
    ensures !Apply(s, a).workers[a.w].Crashed?
  {
    StepCounts(s, a);
  }

  lemma {:induction false} RunSimulates<T>(s: State<T>, run: seq<Action>)
    requires Inv(s) && CanRun(s, run)
    ensures C.CanRun(Abstract(s), AbstractRun(run))
    ensures C.Run(Abstract(s), AbstractRun(run)) == Abstract(Run(s, run))
    decreases run
  {
    if run != [] {
      StepSimulates(s, run[0]);
      StepInv(s, run[0]);
      RunSimulates(Apply(s, run[0]), run[1..]);
      if AbstractAction(run[0]).Some? {
        var abstractRun := AbstractRun(run);
        assert abstractRun[1..] == AbstractRun(run[1..]);
      }
    }
  }

  /** Every run of the queue is a run of the channel pool over the same objects. */
  lemma {:induction false} RefinesChannelPool<T>(objs: seq<T>, n: nat, run: seq<Action>)
    requires CanRun(InitialState(objs, n), run)
    ensures C.CanRun(C.InitialPool(objs, n), AbstractRun(run))
    ensures C.Run(C.InitialPool(objs, n), AbstractRun(run)) == Abstract(Run(InitialState(objs, n), run))
  {
    InitInv(objs, n);
    RunSimulates(InitialState(objs, n), run);
    assert Abstract(InitialState(objs, n)) == C.InitialPool(objs, n);
  }

  /** First in, first out over any interleaving: (popped) ++ Q == (initial) ++ (appended). */
  lemma {:induction false} FirstInFirstOut<T(!new)>(objs: seq<T>, n: nat, run: seq<Action>)
    requires CanRun(InitialState(objs, n), run)
    ensures var s := Run(InitialState(objs, n), run); s.taken + s.queue == objs + s.returned
  {
    RefinesChannelPool(objs, n, run);
    C.NothingLost(objs, n, AbstractRun(run));
  }

  /** No object is lost, and of distinct objects none is in two hands or both in a hand and in the queue. */
  lemma {:induction false} ObjectsConserved<T(!new)>(objs: seq<T>, n: nat, run: seq<Action>)
    requires CanRun(InitialState(objs, n), run)
    ensures C.Conserved(objs, Abstract(Run(InitialState(objs, n), run)))
    ensures C.Distinct(objs) ==>
              var s := Run(InitialState(objs, n), run);
              && (forall w :: 0 <= w < |s.workers| && HasObject(s.workers[w]) == 1 ==> s.workers[w].ob !in s.queue)
              && (forall u, v :: 0 <= u < v < |s.workers| && HasObject(s.workers[u]) == HasObject(s.workers[v]) == 1 ==>
                    s.workers[u].ob != s.workers[v].ob)
  {
    RefinesChannelPool(objs, n, run);
    C.NothingLost(objs, n, AbstractRun(run));
    var s := Run(InitialState(objs, n), run);
    if C.Distinct(objs) {
      C.Exclusive(objs, n, AbstractRun(run));
      var p := Abstract(s);
      forall w | 0 <= w < |s.workers| && HasObject(s.workers[w]) == 1
        ensures p.workers[w].Holding? && p.workers[w].conn == s.workers[w].ob && p.free == s.queue
      {
      }
    }
  }

  // ---------------------------------------------------------------------------------------------
  // Progress and termination
  // ---------------------------------------------------------------------------------------------

  // Someone inside the mutex can always move; with the mutex free, so can any holder of a token.
  lemma {:induction false} HolderCanMove<T>(s: State<T>, w: nat)
    requires Inv(s) && w < |s.workers| && HoldsToken(s.workers[w]) == 1
    requires s.mu.None? || s.mu == Some(w)
    ensures exists a :: Enabled(s, a)
  {
    match s.workers[w]
    case HasToken => assert Enabled(s, LockGet(w));
    case Inside => assert Enabled(s, ReadHead(w));
    case HasRead(_) => assert Enabled(s, DropHead(w));
    case Popped(_) => assert Enabled(s, UnlockGet(w));
    case Holding(_) => assert Enabled(s, LockPut(w));
    case Returning(_) => assert Enabled(s, Append(w));
    case Appended => assert Enabled(s, UnlockPut(w));
    case Unlocked => SendNeverBlocks(s, w);
  }

  function StepsLeft<T>(p: Phase<T>): nat {
    match p
    case Starting => 9
    case HasToken => 8
    case Inside => 7
    case HasRead(_) => 6
    case Popped(_) => 5
    case Holding(_) => 4
    case Returning(_) => 3
    case Appended => 2
    case Unlocked => 1
    case _ => 0
  }

  lemma {:induction false} StepDecreases<T>(s: State<T>, a: Action)
    requires Enabled(s, a)
    ensures Sum(Apply(s, a).workers, StepsLeft) < Sum(s.workers, StepsLeft)
  {
    SumUpdate(s.workers, a.w, Apply(s, a).workers[a.w], StepsLeft);
  }

  lemma {:induction false} RunIsBounded<T>(s: State<T>, run: seq<Action>)
    requires CanRun(s, run)
    ensures |run| + Sum(Run(s, run).workers, StepsLeft) <= Sum(s.workers, StepsLeft)
    decreases run
  {
    if run != [] {
      StepDecreases(s, run[0]);
      RunIsBounded(Apply(s, run[0]), run[1..]);
    }
  }

  /** With a queue of size at least 1, a run can always go on until every worker has finished, and no
      run is longer than nine actions a worker. */
  lemma {:induction false} EveryoneFinishes<T>(objs: seq<T>, n: nat, run: seq<Action>)
    requires objs != [] && CanRun(InitialState(objs, n), run)
    ensures |run| <= 9 * n
    ensures var s := Run(InitialState(objs, n), run);
            (forall p <- s.workers :: p.Finished?) || exists a :: Enabled(s, a)
  {
    var s0 := InitialState(objs, n);
    InitInv(objs, n);
    RunInv(s0, run);
    RunIsBounded(s0, run);
    SumConstant(s0.workers, StepsLeft, 9);
    SizeIsConstant(s0, run);
    var s := Run(s0, run);
    if s.mu.Some? {
      HolderCanMove(s, s.mu.value);
    } else if s.tokens < s.size {
      var h := SumPositive(s.workers, HoldsToken);
      HolderCanMove(s, h);
    } else if exists p <- s.workers :: !p.Finished? {
      var w :| 0 <= w < |s.workers| && !s.workers[w].Finished?;
      if s.workers[w].Starting? {
        assert Enabled(s, TakeToken(w));
      } else {
        HolderCanMove(s, w);
      }
    }
  }

  // ---------------------------------------------------------------------------------------------
  // The functions of the program, run without interference
  // ---------------------------------------------------------------------------------------------

  class BlockingQ<T> {
    const capacity: nat      // of ch; the size field of the source is never set
    var tokens: nat
    var Q: seq<T>

    ghost predicate Valid()
      reads this
    {
      tokens == |Q| <= capacity
    }

    /** `objs` stands for the objects created by the loop. */
    constructor (size: nat, objs: seq<T>)
      requires |objs| == size
      ensures Valid() && capacity == size && tokens == size && Q == objs
    {
      capacity := size;
      tokens, Q := 0, [];
      new;
      for i := 0 to size
        invariant tokens == i && Q == objs[..i]
      {
        Q := Q + [objs[i]];
        tokens := tokens + 1;
      }
    }

    /** Completes only when a token is there; then so is an object. */
    method Get() returns (ret: T)
      requires Valid() && tokens > 0
      modifies this`tokens, this`Q
      ensures Valid() && old(Q) == [ret] + Q && tokens == old(tokens) - 1
    {
      tokens := tokens - 1;
      ret := Q[0];
      Q := Q[1..];
    }

    /** Completes only when the channel has room for the token. */
    method Put(ob: T)
      requires Valid() && tokens < capacity
      modifies this`tokens, this`Q
      ensures Valid() && Q == old(Q) + [ob] && tokens == old(tokens) + 1
    {
      Q := Q + [ob];
      tokens := tokens + 1;
    }
  }
}
