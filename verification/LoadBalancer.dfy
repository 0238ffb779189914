// The balancer of LoadBalancer/main.go: serial selections rotate exactly, interleaved ones need not.
module LoadBalancer {
  import opened Options
  import opened Sums
  import opened Modular

  // ---------------------------------------------------------------------------------------------
  // Serial selection
  // ---------------------------------------------------------------------------------------------

  function Identity(n: nat): nat { n }

  class LB {
    var totals: seq<nat>
    var lastUsed: nat

    ghost predicate Valid()
      reads this
    {
      lastUsed < |totals|
    }

    /** k backends with nothing counted, the last one marked as used; the source has k = 2. */
    constructor (k: nat)
      requires k > 0
      ensures Valid() && |totals| == k && lastUsed == k - 1
      ensures forall i :: 0 <= i < k ==> totals[i] == 0
    {
      totals := seq(k, _ => 0);
      lastUsed := k - 1;
    }

    /** The selecting and counting part of Proxy, without interference. */
    method Proxy() returns (backend: nat)
      requires Valid()
      modifies this
      ensures Valid() && |totals| == |old(totals)|
      ensures backend == lastUsed
      ensures backend == if old(lastUsed) == |totals| - 1 then 0 else old(lastUsed) + 1
      ensures totals == old(totals)[backend := old(totals)[backend] + 1]
    {
      lastUsed := (lastUsed + 1) % |totals|;
      totals := totals[lastUsed := totals[lastUsed] + 1];
      backend := lastUsed;
    }

    /** n calls one after the other, on a new balancer. */
    method Serve(n: nat) returns (served: seq<nat>)
      requires Valid() && lastUsed == |totals| - 1 && forall i :: 0 <= i < |totals| ==> totals[i] == 0
      modifies this
      ensures Valid() && |totals| == |old(totals)|
      ensures |served| == n && forall j :: 0 <= j < n ==> served[j] == j % |totals|
      ensures forall i :: 0 <= i < |totals| ==> totals[i] == (n + |totals| - 1 - i) / |totals|
    {
      served := [];
      var k := |totals|;
      for j := 0 to n
        invariant Valid() && |totals| == k > 0 && |served| == j
        invariant lastUsed == (j + k - 1) % k
        invariant forall m :: 0 <= m < j ==> served[m] == m % k
        invariant forall i :: 0 <= i < k ==> totals[i] == Share(k, j, i)
      {
        RotationStep(k, j);
        forall i | 0 <= i < k ensures Share(k, j + 1, i) == Share(k, j, i) + if i == j % k then 1 else 0 {
          ShareStep(k, j, i);
        }
        var backend := Proxy();
        served := served + [backend];
      }
    }
  }

  /** Of n selections that rotate over k servers from server 0, those of server i. */
  function Share(k: nat, n: nat, i: nat): nat
    requires i < k
  {
    (n + k - 1 - i) / k
  }

  // One more selection rotates by one.
  lemma {:induction false} RotationStep(k: nat, j: nat)
    requires k > 0
    ensures var last := (j + k - 1) % k;
            && (if last == k - 1 then 0 else last + 1) == j % k
            && (j + 1 + k - 1) % k == j % k
  {
    DivModPlus(j, k, k - 1);
    DivModPlus(j, k, k);
  }

  lemma {:induction false} ShareIsFloorOrCeiling(k: nat, n: nat, i: nat)
    requires i < k
    ensures Share(k, n, i) == n / k + if i < n % k then 1 else 0
  {
    DivModPlus(n, k, k - 1 - i);
  }

  /** Selection n goes to server n % k. */
  lemma {:induction false} ShareStep(k: nat, n: nat, i: nat)
    requires i < k
    ensures Share(k, n + 1, i) == Share(k, n, i) + if i == n % k then 1 else 0
  {
    ShareIsFloorOrCeiling(k, n, i);
    ShareIsFloorOrCeiling(k, n + 1, i);
    DivModPlus(n, k, 1);
  }

  /** Serial totals differ by at most one, whatever the two servers. */
  lemma {:induction false} SharesDifferByAtMostOne(k: nat, n: nat, i: nat, j: nat)
    requires i < k && j < k
    ensures -1 <= Share(k, n, i) - Share(k, n, j) <= 1
  {
    ShareIsFloorOrCeiling(k, n, i);
    ShareIsFloorOrCeiling(k, n, j);
  }

  /** Any k selections in a row use each server exactly once. */
  lemma {:induction false} EachServerOncePerRound(k: nat, n: nat, i: nat)
    requires i < k
    ensures Share(k, n + k, i) == Share(k, n, i) + 1
  {
    DivModPlus(n + k - 1 - i, k, k);
  }

  // ---------------------------------------------------------------------------------------------
  // Concurrent selection: LastUsed is read and written outside the mutex
  // ---------------------------------------------------------------------------------------------

  datatype Phase =
    | Starting
    | Loaded(value: nat)                   // LastUsed was read for the increment
    | Stored                               // (value + 1) % len(Servers) was written back
    | Locked
    | Indexed(server: nat)                 // LastUsed was read again, as the index to count
    | Counted(server: nat)                 // Servers[server].Total was incremented
    | Chosen(server: nat, backend: nat)    // LastUsed was read once more, for the backend to dial
    | Unlocked(server: nat, backend: nat)

  datatype State = State(lastUsed: nat, totals: seq<nat>, mu: Option<nat>, workers: seq<Phase>)

  datatype Action =
    | Load(w: nat) | Store(w: nat) | Lock(w: nat) | Index(w: nat) | Count(w: nat) | Choose(w: nat) | Unlock(w: nat)

  function InitialState(k: nat, workers: nat): State
    requires k > 0
  {
    State(k - 1, seq(k, _ => 0), None, seq(workers, _ => Starting))
  }

  predicate Enabled(s: State, a: Action) {
    && a.w < |s.workers| && |s.totals| > 0
    && var p := s.workers[a.w];
       match a
       case Load(_) => p.Starting?
       case Store(_) => p.Loaded?
       case Lock(_) => p.Stored? && s.mu.None?
       case Index(_) => p.Locked?
       case Count(_) => p.Indexed? && p.server < |s.totals|
       case Choose(_) => p.Counted?
       case Unlock(_) => p.Chosen?
  }

  function Apply(s: State, a: Action): State
    requires Enabled(s, a)
  {
    var p := s.workers[a.w];
    match a
    case Load(w) => s.(workers := s.workers[w := Loaded(s.lastUsed)])
    case Store(w) => s.(lastUsed := (p.value + 1) % |s.totals|, workers := s.workers[w := Stored])
    case Lock(w) => s.(mu := Some(w), workers := s.workers[w := Locked])
    case Index(w) => s.(workers := s.workers[w := Indexed(s.lastUsed)])
    case Count(w) =>
      s.(totals := s.totals[p.server := s.totals[p.server] + 1], workers := s.workers[w := Counted(p.server)])
    case Choose(w) => s.(workers := s.workers[w := Chosen(p.server, s.lastUsed)])
    case Unlock(w) => s.(mu := None, workers := s.workers[w := Unlocked(p.server, p.backend)])
  }

  ghost predicate CanRun(s: State, run: seq<Action>)
    decreases run
  {
    run != [] ==> Enabled(s, run[0]) && CanRun(Apply(s, run[0]), run[1..])
  }

  function Run(s: State, run: seq<Action>): State
    requires CanRun(s, run)
    decreases run
  {
    if run == [] then s else Run(Apply(s, run[0]), run[1..])
  }

  predicate InMutex(p: Phase) {
    p.Locked? || p.Indexed? || p.Counted? || p.Chosen?
  }

  function HasCounted(p: Phase): nat {
    if p.Counted? || p.Chosen? || p.Unlocked? then 1 else 0
  }

  /** 1 for a worker that counted this server. */
  function CountedOn(server: nat): Phase -> nat {
    (p: Phase) => if (p.Counted? || p.Chosen? || p.Unlocked?) && p.server == server then 1 else 0
  }

  predicate InRange(k: nat, p: Phase) {
    match p
    case Loaded(v) => v < k
    case Indexed(i) => i < k
    case Counted(i) => i < k
    case Chosen(i, b) => i < k && b < k
    case Unlocked(i, b) => i < k && b < k
    case _ => true
  }

  ghost predicate Inv(k: nat, s: State) {
    && s.lastUsed < k == |s.totals|
    && (forall w :: 0 <= w < |s.workers| ==> InRange(k, s.workers[w]))
    && (forall w :: 0 <= w < |s.workers| ==> (InMutex(s.workers[w]) <==> s.mu == Some(w)))
    && (s.mu.Some? ==> s.mu.value < |s.workers|)
    && (forall i :: 0 <= i < k ==> s.totals[i] == Sum(s.workers, CountedOn(i)))
    && Sum(s.totals, Identity) == Sum(s.workers, HasCounted)
  }

  lemma {:induction false} InitInv(k: nat, n: nat)
    requires k > 0
    ensures Inv(k, InitialState(k, n))
  {
    var s := InitialState(k, n);
    forall i | 0 <= i < k ensures Sum(s.workers, CountedOn(i)) == 0 {
      SumConstant(s.workers, CountedOn(i), 0);
    }
    SumConstant(s.workers, HasCounted, 0);
    SumConstant(s.totals, Identity, 0);
  }

  lemma {:induction false} StepTotal(k: nat, s: State, a: Action, i: nat)
    requires Inv(k, s) && Enabled(s, a) && i < k
    ensures Apply(s, a).totals[i] == Sum(Apply(s, a).workers, CountedOn(i))
  {
    SumUpdate(s.workers, a.w, Apply(s, a).workers[a.w], CountedOn(i));
  }

  lemma {:induction false} StepTotals(k: nat, s: State, a: Action)
    requires Inv(k, s) && Enabled(s, a)
    ensures var t := Apply(s, a);
            && (forall i :: 0 <= i < k ==> t.totals[i] == Sum(t.workers, CountedOn(i)))
            && Sum(t.totals, Identity) == Sum(t.workers, HasCounted)
  {
    SumUpdate(s.workers, a.w, Apply(s, a).workers[a.w], HasCounted);
    forall i | 0 <= i < k ensures Apply(s, a).totals[i] == Sum(Apply(s, a).workers, CountedOn(i)) {
      StepTotal(k, s, a, i);
    }
    if a.Count? {
      var i := s.workers[a.w].server;
      SumUpdate(s.totals, i, s.totals[i] + 1, Identity);
    }
  }

  lemma {:induction false} StepInv(k: nat, s: State, a: Action)
    requires Inv(k, s) && Enabled(s, a)
    ensures Inv(k, Apply(s, a))
  {
    StepTotals(k, s, a);
    assert Apply(s, a).workers == s.workers[a.w := Apply(s, a).workers[a.w]];
  }

  lemma {:induction false} RunInv(k: nat, s: State, run: seq<Action>)
    requires Inv(k, s) && CanRun(s, run)
    ensures Inv(k, Run(s, run)) && |Run(s, run).workers| == |s.workers|
    decreases run
  {
    if run != [] {
      StepInv(k, s, run[0]);
      RunInv(k, Apply(s, run[0]), run[1..]);
    }
  }

  /** In every interleaving LastUsed stays in range, counts are never lost, and each server's total is the
      number of workers that counted it. */
  lemma {:induction false} CountsAreExact(k: nat, n: nat, run: seq<Action>)
    requires k > 0 && CanRun(InitialState(k, n), run)
    ensures var s := Run(InitialState(k, n), run);
            && s.lastUsed < k == |s.totals|
            && (forall i :: 0 <= i < k ==> s.totals[i] == Sum(s.workers, CountedOn(i)))
            && Sum(s.totals, Identity) == Sum(s.workers, HasCounted) <= n
  {
    InitInv(k, n);
    RunInv(k, InitialState(k, n), run);
    var s := Run(InitialState(k, n), run);
    SumDominated(s.workers, HasCounted, One);
    SumConstant(s.workers, One, 1);
  }

  // ---------------------------------------------------------------------------------------------
  // Calls that do not overlap
  // ---------------------------------------------------------------------------------------------

  predicate InCall(p: Phase) {
    !p.Starting? && !p.Unlocked?
  }

  /** At most one call is under way. */
  ghost predicate Alone(s: State) {
    forall u, v :: 0 <= u < v < |s.workers| ==> !(InCall(s.workers[u]) && InCall(s.workers[v]))
  }

  ghost predicate AlwaysAlone(s: State, run: seq<Action>)
    requires CanRun(s, run)
    decreases run
  {
    Alone(s) && (run != [] ==> AlwaysAlone(Apply(s, run[0]), run[1..]))
  }

  function HasStored(p: Phase): nat {
    if p.Starting? || p.Loaded? then 0 else 1
  }

  predicate AboutToCount(p: Phase) {
    p.Stored? || p.Locked? || p.Indexed?
  }

  ghost predicate SomeoneCounts(s: State) {
    exists p <- s.workers :: AboutToCount(p)
  }

  /** The call under way agrees with LastUsed. */
  predicate Agrees(lastUsed: nat, p: Phase) {
    match p
    case Loaded(v) => v == lastUsed
    case Indexed(i) => i == lastUsed
    case Counted(i) => i == lastUsed
    case Chosen(i, b) => i == b == lastUsed
    case Unlocked(i, b) => i == b
    case _ => true
  }

  /** LastUsed has rotated once for each store, and the totals are those of as many selections as were counted. */
  ghost predicate SerialInv(k: nat, s: State) {
    && 0 < k == |s.totals|
    && s.lastUsed == (Sum(s.workers, HasStored) + k - 1) % k
    && (forall i :: 0 <= i < k ==> s.totals[i] == Share(k, Sum(s.workers, HasCounted), i))
    && (forall p <- s.workers :: Agrees(s.lastUsed, p))
    && Sum(s.workers, HasStored) == Sum(s.workers, HasCounted) + if SomeoneCounts(s) then 1 else 0
  }

  lemma {:induction false} InitSerial(k: nat, n: nat)
    requires k > 0
    ensures SerialInv(k, InitialState(k, n))
  {
    var s := InitialState(k, n);
    SumConstant(s.workers, HasStored, 0);
    SumConstant(s.workers, HasCounted, 0);
    DivModUnique(k - 1, k, 0, k - 1);
    forall i | 0 <= i < k ensures Share(k, 0, i) == 0 {
      DivModUnique(k - 1 - i, k, 0, k - 1 - i);
    }
  }

  lemma {:induction false} StepAgrees(s: State, a: Action)
    requires Enabled(s, a) && Alone(s) && Alone(Apply(s, a)) && forall p <- s.workers :: Agrees(s.lastUsed, p)
    ensures forall p <- Apply(s, a).workers :: Agrees(Apply(s, a).lastUsed, p)
  {
    var t := Apply(s, a);
    assert s.workers[a.w] in s.workers;
    forall w | 0 <= w < |t.workers| ensures Agrees(t.lastUsed, t.workers[w]) {
      if w != a.w {
        assert t.workers[w] == s.workers[w] && s.workers[w] in s.workers;
        assert !(InCall(s.workers[w]) && InCall(s.workers[a.w]));
        assert !(InCall(t.workers[w]) && InCall(t.workers[a.w]));
      }
    }
  }

  lemma {:induction false} StepSomeoneCounts(s: State, a: Action)
    requires Enabled(s, a) && Alone(s)
    ensures AboutToCount(s.workers[a.w]) ==> SomeoneCounts(s)
    ensures InCall(s.workers[a.w]) ==> (SomeoneCounts(s) <==> AboutToCount(s.workers[a.w]))
    ensures InCall(s.workers[a.w]) ==> (SomeoneCounts(Apply(s, a)) <==> AboutToCount(Apply(s, a).workers[a.w]))
    ensures a.Load? ==> (SomeoneCounts(Apply(s, a)) <==> SomeoneCounts(s))
  {
    var t := Apply(s, a);
    assert t.workers == s.workers[a.w := t.workers[a.w]];
    assert s.workers[a.w] in s.workers && t.workers[a.w] in t.workers;
    forall w | 0 <= w < |s.workers| && w != a.w ensures t.workers[w] == s.workers[w] && t.workers[w] in t.workers {
    }
  }

  lemma {:induction false} StepSerialCounts(k: nat, s: State, a: Action)
    requires SerialInv(k, s) && Enabled(s, a) && Alone(s)
    ensures var t := Apply(s, a);
            && Sum(t.workers, HasStored) == Sum(s.workers, HasStored) + (if a.Store? then 1 else 0)
            && Sum(t.workers, HasCounted) == Sum(s.workers, HasCounted) + (if a.Count? then 1 else 0)
            && Sum(t.workers, HasStored) == Sum(t.workers, HasCounted) + (if SomeoneCounts(t) then 1 else 0)
  {
    SumUpdate(s.workers, a.w, Apply(s, a).workers[a.w], HasStored);
    SumUpdate(s.workers, a.w, Apply(s, a).workers[a.w], HasCounted);
    StepSomeoneCounts(s, a);
  }

  lemma {:induction false} RotateOnce(k: nat, last: nat, m: nat)
    requires k > 0 && last == (m + k - 1) % k
    ensures (last + 1) % k == (m + 1 + k - 1) % k
  {
    RotationStep(k, m);
    if last == k - 1 {
      DivModUnique(k, k, 1, 0);
    } else {
      DivModUnique(last + 1, k, 0, last + 1);
    }
  }

  lemma {:induction false} StepRotates(k: nat, s: State, a: Action)
    requires SerialInv(k, s) && Enabled(s, a)
    ensures a.Store? ==> Apply(s, a).lastUsed == (Sum(s.workers, HasStored) + 1 + k - 1) % k
    ensures !a.Store? ==> Apply(s, a).lastUsed == s.lastUsed
  {
    if a.Store? {
      assert Agrees(s.lastUsed, s.workers[a.w]);
      RotateOnce(k, s.lastUsed, Sum(s.workers, HasStored));
    }
  }

  lemma {:induction false} StepShares(k: nat, s: State, a: Action)
    requires SerialInv(k, s) && Enabled(s, a) && (a.Count? ==> SomeoneCounts(s))
    ensures var t, counted := Apply(s, a), Sum(s.workers, HasCounted);
            forall i :: 0 <= i < k ==> t.totals[i] == Share(k, if a.Count? then counted + 1 else counted, i)
  {
    var counted := Sum(s.workers, HasCounted);
    if a.Count? {
      assert Agrees(s.lastUsed, s.workers[a.w]);
      DivModPlus(counted, k, k);
      forall i | 0 <= i < k
        ensures Share(k, counted + 1, i) == Share(k, counted, i) + if i == counted % k then 1 else 0
      {
        ShareStep(k, counted, i);
      }
    }
  }

  lemma {:induction false} StepSerial(k: nat, s: State, a: Action)
    requires SerialInv(k, s) && Enabled(s, a) && Alone(s) && Alone(Apply(s, a))
    ensures SerialInv(k, Apply(s, a))
  {
    StepAgrees(s, a);
    StepSerialCounts(k, s, a);
    StepSomeoneCounts(s, a);
    StepRotates(k, s, a);
    StepShares(k, s, a);
  }

  lemma {:induction false} RunSerial(k: nat, s: State, run: seq<Action>)
    requires SerialInv(k, s) && CanRun(s, run) && AlwaysAlone(s, run)
    ensures SerialInv(k, Run(s, run))
    decreases run
  {
    if run != [] {
      StepSerial(k, s, run[0]);
      RunSerial(k, Apply(s, run[0]), run[1..]);
    }
  }

  /** A run in which no two calls overlap is serial selection: with m calls counted so far, in whatever order they
      came, server i has the total (m + k - 1 - i) / k, and each call dials the server it counted. */
  lemma {:induction false} WithoutOverlapIsSerial(k: nat, n: nat, run: seq<Action>)
    requires k > 0 && CanRun(InitialState(k, n), run) && AlwaysAlone(InitialState(k, n), run)
    ensures var s := Run(InitialState(k, n), run);
            var m := Sum(s.workers, HasCounted);
            && |s.totals| == k
            && (forall i :: 0 <= i < k ==> s.totals[i] == (m + k - 1 - i) / k)
            && DialsCounted(s)
  {
    InitSerial(k, n);
    RunSerial(k, InitialState(k, n), run);
    var s := Run(InitialState(k, n), run);
    forall p | p in s.workers && (p.Chosen? || p.Unlocked?) ensures p.server == p.backend {
      assert Agrees(s.lastUsed, p);
    }
  }

  // ---------------------------------------------------------------------------------------------
  // Progress and termination
  // ---------------------------------------------------------------------------------------------

  function StepsLeft(p: Phase): nat {
    match p
    case Starting => 7
    case Loaded(_) => 6
    case Stored => 5
    case Locked => 4
    case Indexed(_) => 3
    case Counted(_) => 2
    case Chosen(_, _) => 1
    case Unlocked(_, _) => 0
  }

  lemma {:induction false} RunIsBounded(s: State, run: seq<Action>)
    requires CanRun(s, run)
    ensures |run| + Sum(Run(s, run).workers, StepsLeft) <= Sum(s.workers, StepsLeft)
    decreases run
  {
    if run != [] {
      SumUpdate(s.workers, run[0].w, Apply(s, run[0]).workers[run[0].w], StepsLeft);
      RunIsBounded(Apply(s, run[0]), run[1..]);
    }
  }

  lemma {:induction false} CanMove(k: nat, s: State, w: nat)
    requires Inv(k, s) && k > 0 && w < |s.workers| && !s.workers[w].Unlocked? && (s.mu.None? || s.mu == Some(w))
    ensures exists a :: Enabled(s, a)
  {
    assert InRange(k, s.workers[w]);
    match s.workers[w]
    case Starting => assert Enabled(s, Load(w));
    case Loaded(_) => assert Enabled(s, Store(w));
    case Stored => assert Enabled(s, Lock(w));
    case Locked => assert Enabled(s, Index(w));
    case Indexed(_) => assert Enabled(s, Count(w));
    case Counted(_) => assert Enabled(s, Choose(w));
    case Chosen(_, _) => assert Enabled(s, Unlock(w));
  }

  /** A run can always go on until every call has chosen its backend, and has at most seven actions a call. */
  lemma {:induction false} EveryoneFinishes(k: nat, n: nat, run: seq<Action>)
    requires k > 0 && CanRun(InitialState(k, n), run)
    ensures |run| <= 7 * n
    ensures var s := Run(InitialState(k, n), run);
            (forall p <- s.workers :: p.Unlocked?) || exists a :: Enabled(s, a)
  {
    var s0 := InitialState(k, n);
    InitInv(k, n);
    RunInv(k, s0, run);
    RunIsBounded(s0, run);
    SumConstant(s0.workers, StepsLeft, 7);
    var s := Run(s0, run);
    if s.mu.Some? {
      CanMove(k, s, s.mu.value);
    } else if exists p <- s.workers :: !p.Unlocked? {
      var w :| 0 <= w < |s.workers| && !s.workers[w].Unlocked?;
      CanMove(k, s, w);
    }
  }

  // ---------------------------------------------------------------------------------------------
  // Balance rests on serial selection
  // ---------------------------------------------------------------------------------------------

  ghost predicate Balanced(s: State) {
    forall i, j :: 0 <= i < |s.totals| && 0 <= j < |s.totals| ==> s.totals[i] <= s.totals[j] + 1
  }

  ghost predicate AlwaysBalanced(k: nat, n: nat)
    requires k > 0
  {
    forall run :: CanRun(InitialState(k, n), run) ==> Balanced(Run(InitialState(k, n), run))
  }

  lemma {:induction false} RunConcat(s: State, run: seq<Action>, more: seq<Action>)
    requires CanRun(s, run) && CanRun(Run(s, run), more)
    ensures CanRun(s, run + more) && Run(s, run + more) == Run(Run(s, run), more)
    decreases run
  {
    if run == [] {
      assert run + more == more;
    } else {
      assert (run + more)[1..] == run[1..] + more;
      RunConcat(Apply(s, run[0]), run[1..], more);
    }
  }

  lemma {:induction false} RunAppend(s: State, run: seq<Action>, a: Action)
    requires CanRun(s, run) && Enabled(Run(s, run), a)
    ensures CanRun(s, run + [a]) && Run(s, run + [a]) == Apply(Run(s, run), a)
  {
    RunConcat(s, run, [a]);
  }

  // The first m workers have read LastUsed; nobody has done anything else.
  lemma {:induction false} AllLoad(k: nat, n: nat, m: nat) returns (run: seq<Action>)
    requires k > 0 && m <= n
    ensures CanRun(InitialState(k, n), run)
    ensures Run(InitialState(k, n), run)
         == InitialState(k, n).(workers := seq(n, w => if w < m then Loaded(k - 1) else Starting))
  {
    if m == 0 {
      run := [];
      assert InitialState(k, n).workers == seq(n, w => if w < m then Loaded(k - 1) else Starting);
    } else {
      var prefix := AllLoad(k, n, m - 1);
      RunAppend(InitialState(k, n), prefix, Load(m - 1));
      run := prefix + [Load(m - 1)];
      assert Run(InitialState(k, n), run).workers == seq(n, w => if w < m then Loaded(k - 1) else Starting);
    }
  }

  // A worker that holds a stale value goes through to the end on its own, and counts server 0.
  lemma {:induction false} StaleWorkerProceeds(k: nat, s: State, w: nat) returns (run: seq<Action>)
    requires k == |s.totals| > 0 && w < |s.workers| && s.workers[w] == Loaded(k - 1) && s.mu.None?
    ensures CanRun(s, run)
    ensures Run(s, run)
         == State(0, s.totals[0 := s.totals[0] + 1], None, s.workers[w := Unlocked(0, 0)])
  {
    var s1 := Apply(s, Store(w));
    assert s1 == State(0, s.totals, None, s.workers[w := Stored]);
    var s2 := Apply(s1, Lock(w));
    var s3 := Apply(s2, Index(w));
    assert s3 == State(0, s.totals, Some(w), s.workers[w := Indexed(0)]);
    RunAppend(s, [Store(w)], Lock(w));
    RunAppend(s, [Store(w)] + [Lock(w)], Index(w));
    var first := [Store(w)] + [Lock(w)] + [Index(w)];
    var s4 := Apply(s3, Count(w));
    var s5 := Apply(s4, Choose(w));
    var s6 := Apply(s5, Unlock(w));
    assert s6 == State(0, s.totals[0 := s.totals[0] + 1], None, s.workers[w := Unlocked(0, 0)]);
    RunAppend(s3, [Count(w)], Choose(w));
    RunAppend(s3, [Count(w)] + [Choose(w)], Unlock(w));
    var second := [Count(w)] + [Choose(w)] + [Unlock(w)];
    RunConcat(s, first, second);
    run := first + second;
  }

  function StaleWorkers(n: nat, m: nat, k: nat): seq<Phase>
    requires k > 0
  {
    seq(n, w => if w < m then Unlocked(0, 0) else Loaded(k - 1))
  }

  // With all n workers holding the same stale value, the first m of them proceed one by one.
  lemma {:induction false} StaleWorkersProceed(k: nat, n: nat, m: nat) returns (run: seq<Action>)
    requires k > 0 && m <= n
    ensures CanRun(InitialState(k, n), run)
    ensures Run(InitialState(k, n), run)
         == State(if m == 0 then k - 1 else 0, seq(k, _ => 0)[0 := m], None, StaleWorkers(n, m, k))
  {
    var s0 := InitialState(k, n);
    if m == 0 {
      run := AllLoad(k, n, n);
      assert Run(s0, run).workers == StaleWorkers(n, 0, k);
      assert seq(k, _ => 0)[0 := 0] == s0.totals;
    } else {
      var before := StaleWorkersProceed(k, n, m - 1);
      var s := Run(s0, before);
      var more := StaleWorkerProceeds(k, s, m - 1);
      RunConcat(s0, before, more);
      run := before + more;
      assert s.workers == StaleWorkers(n, m - 1, k);
      assert StaleWorkers(n, m - 1, k)[m - 1 := Unlocked(0, 0)] == StaleWorkers(n, m, k);
      assert s.totals[0 := m] == seq(k, _ => 0)[0 := m];
    }
  }

  /** For every N some run of N workers counts all of them on server 0 and none on any other. */
  lemma {:induction false} UnboundedImbalance(k: nat, n: nat) returns (run: seq<Action>)
    requires k > 0
    ensures CanRun(InitialState(k, n), run)
    ensures var s := Run(InitialState(k, n), run);
            |s.totals| == k && s.totals[0] == n && forall i :: 0 < i < k ==> s.totals[i] == 0
  {
    run := StaleWorkersProceed(k, n, n);
  }

  /** Balance in every interleaving holds exactly when there is one server or at most one worker. */
  lemma {:induction false} BalancedExactly(k: nat, n: nat)
    requires k > 0
    ensures AlwaysBalanced(k, n) <==> k == 1 || n <= 1
  {
    if k >= 2 && n >= 2 {
      var run := UnboundedImbalance(k, n);
      assert Run(InitialState(k, n), run).totals[1] == 0;
    } else {
      forall run | CanRun(InitialState(k, n), run) ensures Balanced(Run(InitialState(k, n), run)) {
        CountsAreExact(k, n, run);
        var s := Run(InitialState(k, n), run);
        forall i, j | 0 <= i < |s.totals| && 0 <= j < |s.totals| ensures s.totals[i] <= s.totals[j] + 1 {
          SumAtLeast(s.totals, i, Identity);
        }
      }
    }
  }

  // ---------------------------------------------------------------------------------------------
  // The backend dialled is read apart from the server counted
  // ---------------------------------------------------------------------------------------------

  /** Every worker that has its backend dials the server it counted. */
  ghost predicate DialsCounted(s: State) {
    forall p <- s.workers :: p.Chosen? || p.Unlocked? ==> p.server == p.backend
  }

  ghost predicate AlwaysDialsCounted(k: nat, n: nat)
    requires k > 0
  {
    forall run :: CanRun(InitialState(k, n), run) ==> DialsCounted(Run(InitialState(k, n), run))
  }

  // A worker that is alone reads the same LastUsed every time.
  ghost predicate AloneInv(s: State) {
    && |s.workers| <= 1 && DialsCounted(s)
    && forall p <- s.workers :: p.Indexed? || p.Counted? ==> p.server == s.lastUsed
  }

  lemma {:induction false} AloneRun(s: State, run: seq<Action>)
    requires AloneInv(s) && CanRun(s, run)
    ensures AloneInv(Run(s, run))
    decreases run
  {
    if run != [] {
      AloneRun(Apply(s, run[0]), run[1..]);
    }
  }

  // Worker 0 in phase p, worker 1 in phase q, the others not yet started.
  function FirstTwo(n: nat, p: Phase, q: Phase): (workers: seq<Phase>)
    ensures |workers| == n
    ensures forall w :: 0 <= w < n ==> workers[w] == if w == 0 then p else if w == 1 then q else Starting
  {
    seq(n, w => if w == 0 then p else if w == 1 then q else Starting)
  }

  // Worker 0 is about to read its index, worker 1 about to store 1.
  function Overtaken(k: nat, n: nat): State {
    State(0, seq(k, _ => 0), Some(0), FirstTwo(n, Locked, Loaded(0)))
  }

  lemma {:induction false} ReachOvertaken(k: nat, n: nat) returns (run: seq<Action>)
    requires k > 1 && n > 1
    ensures CanRun(InitialState(k, n), run) && Run(InitialState(k, n), run) == Overtaken(k, n)
  {
    var s0 := InitialState(k, n);
    var s1 := s0.(workers := FirstTwo(n, Loaded(k - 1), Starting));
    var s2 := s0.(lastUsed := 0, workers := FirstTwo(n, Stored, Starting));
    var s3 := s0.(lastUsed := 0, workers := FirstTwo(n, Stored, Loaded(0)));
    assert Apply(s0, Load(0)) == s1;
    RunAppend(s0, [Load(0)], Store(0));
    assert Apply(s1, Store(0)) == s2;
    RunAppend(s0, [Load(0)] + [Store(0)], Load(1));
    assert Apply(s2, Load(1)) == s3;
    RunAppend(s0, [Load(0)] + [Store(0)] + [Load(1)], Lock(0));
    assert Apply(s3, Lock(0)) == Overtaken(k, n);
    run := [Load(0)] + [Store(0)] + [Load(1)] + [Lock(0)];
  }

  lemma {:induction false} FromOvertaken(k: nat, n: nat) returns (run: seq<Action>)
    requires k > 1 && n > 1
    ensures CanRun(Overtaken(k, n), run) && Run(Overtaken(k, n), run).workers == FirstTwo(n, Chosen(0, 1), Stored)
  {
    var s0 := Overtaken(k, n);
    var s1 := s0.(workers := FirstTwo(n, Indexed(0), Loaded(0)));
    var s2 := s0.(totals := s0.totals[0 := 1], workers := FirstTwo(n, Counted(0), Loaded(0)));
    var s3 := s0.(lastUsed := 1, totals := s0.totals[0 := 1], workers := FirstTwo(n, Counted(0), Stored));
    assert Apply(s0, Index(0)) == s1;
    RunAppend(s0, [Index(0)], Count(0));
    assert Apply(s1, Count(0)) == s2;
    RunAppend(s0, [Index(0)] + [Count(0)], Store(1));
    assert Apply(s2, Store(1)) == s3;
    RunAppend(s0, [Index(0)] + [Count(0)] + [Store(1)], Choose(0));
    assert Apply(s3, Choose(0)).workers == FirstTwo(n, Chosen(0, 1), Stored);
    run := [Index(0)] + [Count(0)] + [Store(1)] + [Choose(0)];
  }

  /** The backend dialled need not be the server counted: LastUsed is read twice in the locked region. */
  lemma {:induction false} CountedIsNotDialled(k: nat, n: nat) returns (run: seq<Action>)
    requires k > 1 && n > 1
    ensures CanRun(InitialState(k, n), run)
    ensures Run(InitialState(k, n), run).workers == FirstTwo(n, Chosen(0, 1), Stored)
  {
    var first := ReachOvertaken(k, n);
    var second := FromOvertaken(k, n);
    RunConcat(InitialState(k, n), first, second);
    run := first + second;
  }

  /** Every worker dials the server it counted, in every interleaving, exactly when there is one server or at
      most one worker. */
  lemma {:induction false} DialsCountedExactly(k: nat, n: nat)
    requires k > 0
    ensures AlwaysDialsCounted(k, n) <==> k == 1 || n <= 1
  {
    var s0 := InitialState(k, n);
    if k > 1 && n > 1 {
      var run := CountedIsNotDialled(k, n);
      assert Run(s0, run).workers[0] in Run(s0, run).workers;
    } else {
      forall run | CanRun(s0, run) ensures DialsCounted(Run(s0, run)) {
        InitInv(k, n);
        RunInv(k, s0, run);
        if n <= 1 {
          AloneRun(s0, run);
        }
      }
    }
  }
}
