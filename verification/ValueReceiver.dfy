// blockingQ/main.go as it is written: Get and Put take the queue by value.
//
// The channel is shared by all copies of a BlockingQ, but the slice header and the mutex are copied on
// every call. A call re-slices or appends to its own copy, under its own mutex, and the copy is gone when
// the call returns. So the two locked regions need no interleaving of their own here; what remains shared
// is the channel of tokens.
module ValueReceiver {
  import opened Sums

  datatype Phase<T> =
    | Starting
    | HasToken(copy: seq<T>)   // inside Get, with the copied slice
    | Holding(ob: T)
    | Unlocked                 // inside Put, about to send; its copy of the slice was appended to
    | Finished
    | Crashed

  datatype State<T> = State(size: nat, tokens: nat, queue: seq<T>, workers: seq<Phase<T>>)

  datatype Action = TakeToken(w: nat) | Pop(w: nat) | Append(w: nat) | SendToken(w: nat)

  function InitialState<T>(objs: seq<T>, workers: nat): State<T> {
    State(|objs|, |objs|, objs, seq(workers, _ => Starting))
  }

  predicate Enabled<T>(s: State<T>, a: Action) {
    && a.w < |s.workers|
    && match a
       case TakeToken(w) => s.workers[w].Starting? && s.tokens > 0
       case Pop(w) => s.workers[w].HasToken?
       case Append(w) => s.workers[w].Holding?
       case SendToken(w) => s.workers[w].Unlocked? && s.tokens < s.size
  }

  function Apply<T>(s: State<T>, a: Action): State<T>
    requires Enabled(s, a)
  {
    match a
    case TakeToken(w) => s.(tokens := s.tokens - 1, workers := s.workers[w := HasToken(s.queue)])
    case Pop(w) =>
      var copy := s.workers[w].copy;
      s.(workers := s.workers[w := if copy == [] then Crashed else Holding(copy[0])])
    case Append(w) => s.(workers := s.workers[w := Unlocked])
    case SendToken(w) => s.(tokens := s.tokens + 1, workers := s.workers[w := Finished])
  }

  ghost predicate CanRun<T>(s: State<T>, run: seq<Action>)
    decreases run
  {
    run != [] ==> Enabled(s, run[0]) && CanRun(Apply(s, run[0]), run[1..])
  }

  function Run<T>(s: State<T>, run: seq<Action>): State<T>
    requires CanRun(s, run)
    decreases run
  {
    if run == [] then s else Run(Apply(s, run[0]), run[1..])
  }

  function HoldsToken<T>(p: Phase<T>): nat {
    if p.HasToken? || p.Holding? || p.Unlocked? then 1 else 0
  }

  ghost predicate Inv<T>(objs: seq<T>, n: nat, s: State<T>) {
    && s.queue == objs && s.size == |objs| && |s.workers| == n
    && s.tokens + Sum(s.workers, HoldsToken) == s.size
    && forall w :: 0 <= w < |s.workers| ==>
         match s.workers[w]
         case HasToken(copy) => copy == objs
         case Holding(ob) => objs != [] && ob == objs[0]
         case Crashed => false
         case _ => true
  }

  lemma {:induction false} InitInv<T>(objs: seq<T>, n: nat)
    ensures Inv(objs, n, InitialState(objs, n))
  {
    SumConstant(InitialState(objs, n).workers, HoldsToken, 0);
  }

  lemma {:induction false} StepInv<T>(objs: seq<T>, n: nat, s: State<T>, a: Action)
    requires Inv(objs, n, s) && Enabled(s, a)
    ensures Inv(objs, n, Apply(s, a))
  {
    SumUpdate(s.workers, a.w, Apply(s, a).workers[a.w], HoldsToken);
    SumAtLeast(s.workers, a.w, HoldsToken);
  }

  lemma {:induction false} RunInv<T>(objs: seq<T>, n: nat, s: State<T>, run: seq<Action>)
    requires Inv(objs, n, s) && CanRun(s, run)
    ensures Inv(objs, n, Run(s, run))
    decreases run
  {
    if run != [] {
      StepInv(objs, n, s, run[0]);
      RunInv(objs, n, Apply(s, run[0]), run[1..]);
    }
  }

  /** Every Get returns the object that was first in the new queue and never goes out of bounds; the
      shared slice never changes; the tokens still bound the holders. */
  lemma {:induction false} EveryoneGetsTheFirst<T>(objs: seq<T>, n: nat, run: seq<Action>)
    requires CanRun(InitialState(objs, n), run)
    ensures var s := Run(InitialState(objs, n), run);
            && s.queue == objs
            && (forall p <- s.workers :: p.Holding? ==> objs != [] && p.ob == objs[0])
            && (forall p <- s.workers :: !p.Crashed?)
            && Sum(s.workers, HoldsToken) <= |objs|
  {
    InitInv(objs, n);
    RunInv(objs, n, InitialState(objs, n), run);
  }

  // ---------------------------------------------------------------------------------------------
  // Progress and termination
  // ---------------------------------------------------------------------------------------------

  function StepsLeft<T>(p: Phase<T>): nat {
    match p
    case Starting => 4
    case HasToken(_) => 3
    case Holding(_) => 2
    case Unlocked => 1
    case _ => 0
  }

  lemma {:induction false} RunIsBounded<T>(s: State<T>, run: seq<Action>)
    requires CanRun(s, run)
    ensures |run| + Sum(Run(s, run).workers, StepsLeft) <= Sum(s.workers, StepsLeft)
    decreases run
  {
    if run != [] {
      SumUpdate(s.workers, run[0].w, Apply(s, run[0]).workers[run[0].w], StepsLeft);
      RunIsBounded(Apply(s, run[0]), run[1..]);
    }
  }

  lemma {:induction false} HolderCanMove<T>(objs: seq<T>, n: nat, s: State<T>, w: nat)
    requires Inv(objs, n, s) && w < |s.workers| && HoldsToken(s.workers[w]) == 1
    ensures exists a :: Enabled(s, a)
  {
    SumAtLeast(s.workers, w, HoldsToken);
    match s.workers[w]
    case HasToken(_) => assert Enabled(s, Pop(w));
    case Holding(_) => assert Enabled(s, Append(w));
    case Unlocked => assert Enabled(s, SendToken(w));
  }

  /** With at least one object a run can always go on until every worker has finished, and it has at most four
      actions a worker. */
  lemma {:induction false} EveryoneFinishes<T>(objs: seq<T>, n: nat, run: seq<Action>)
    requires objs != [] && CanRun(InitialState(objs, n), run)
    ensures |run| <= 4 * n
    ensures var s := Run(InitialState(objs, n), run);
            (forall p <- s.workers :: p.Finished?) || exists a :: Enabled(s, a)
  {
    var s0 := InitialState(objs, n);
    InitInv(objs, n);
    RunInv(objs, n, s0, run);
    RunIsBounded(s0, run);
    SumConstant(s0.workers, StepsLeft, 4);
    var s := Run(s0, run);
    if s.tokens < s.size {
      var h := SumPositive(s.workers, HoldsToken);
      HolderCanMove(objs, n, s, h);
    } else if exists p <- s.workers :: !p.Finished? {
      var w :| 0 <= w < |s.workers| && !s.workers[w].Finished?;
      if s.workers[w].Starting? {
        assert Enabled(s, TakeToken(w));
      } else {
        HolderCanMove(objs, n, s, w);
      }
    }
  }

  // ---------------------------------------------------------------------------------------------
  // Sharing
  // ---------------------------------------------------------------------------------------------

  ghost predicate NoSharing<T>(s: State<T>) {
    forall u, v :: 0 <= u < v < |s.workers| && s.workers[u].Holding? && s.workers[v].Holding? ==>
      s.workers[u].ob != s.workers[v].ob
  }

  ghost predicate NeverShared<T>(objs: seq<T>, n: nat) {
    forall run :: CanRun(InitialState(objs, n), run) ==> NoSharing(Run(InitialState(objs, n), run))
  }

  lemma {:induction false} TwoGetsShare<T>(objs: seq<T>, n: nat) returns (run: seq<Action>)
    requires |objs| >= 2 && n >= 2
    ensures CanRun(InitialState(objs, n), run) && !NoSharing(Run(InitialState(objs, n), run))
  {
    run := [TakeToken(0), TakeToken(1), Pop(0), Pop(1)];
    var s0 := InitialState(objs, n);
    var s1 := Apply(s0, run[0]);
    var s2 := Apply(s1, run[1]);
    var s3 := Apply(s2, run[2]);
    var s4 := Apply(s3, run[3]);
    assert run[1..] == [TakeToken(1), Pop(0), Pop(1)];
    assert run[1..][1..] == [Pop(0), Pop(1)];
    assert run[1..][1..][1..] == [Pop(1)];
    assert CanRun(s3, [Pop(1)]) && Run(s3, [Pop(1)]) == s4;
    assert CanRun(s2, [Pop(0), Pop(1)]) && Run(s2, [Pop(0), Pop(1)]) == s4;
    assert s4.workers[0].ob == s4.workers[1].ob == objs[0];
  }

  /** As written, no object is ever in two hands exactly when the pool has at most one object or there is
      at most one worker. */
  lemma {:induction false} SharingExactly<T>(objs: seq<T>, n: nat)
    ensures NeverShared(objs, n) <==> |objs| < 2 || n < 2
  {
    if |objs| >= 2 && n >= 2 {
      var run := TwoGetsShare(objs, n);
    } else {
      forall run | CanRun(InitialState(objs, n), run) ensures NoSharing(Run(InitialState(objs, n), run)) {
        InitInv(objs, n);
        RunInv(objs, n, InitialState(objs, n), run);
        var s := Run(InitialState(objs, n), run);
        forall u, v | 0 <= u < v < |s.workers| && s.workers[u].Holding? && s.workers[v].Holding? ensures false {
          SumAtLeastTwo(s.workers, u, v, HoldsToken);
        }
      }
    }
  }
}
