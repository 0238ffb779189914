// createChannel of slack/main.go when its requests are not taken one at a time: the lookup and the inserts of
// several requests interleave, and any of these calls may fail. (The C++ server holds dbMutex for the whole
// handler.)
module ChannelRace {
  import opened Options
  import opened Chat

  /** The two users of a request; both exist. */
  datatype Pair = Pair(sender: int, receiver: int)

  datatype Phase =
    | Ready
    | NotFound                  // the join returned no row
    | HasChannel(channel: nat)
    | Announced(channel: nat)   // the first message is stored and the receiver is being told
    | Half(channel: nat)        // the sender's membership inserted
    | Done(channel: nat)        // the channel found, or completed
    | Stopped

  /** `creators` notes for each channel, numbered from 1, which request inserted it. */
  datatype State = State(members: seq<Member>, creators: seq<nat>, requests: seq<Phase>)

  datatype Action =
    | Look(r: nat) | InsertChannel(r: nat) | InsertMessage(r: nat) | InsertSender(r: nat) | InsertReceiver(r: nat)
    | Fail(r: nat)              // the next call of the request returns an error

  function InitialState(n: nat): State {
    State([], [], seq(n, _ => Ready))
  }

  predicate Enabled(pairs: seq<Pair>, s: State, a: Action) {
    && |s.requests| == |pairs| && a.r < |pairs|
    && match a
       case Look(r) => s.requests[r].Ready?
       case InsertChannel(r) => s.requests[r].NotFound?
       case InsertMessage(r) => s.requests[r].HasChannel?
       case InsertSender(r) => s.requests[r].Announced?
       case InsertReceiver(r) => s.requests[r].Half?
       case Fail(r) => !s.requests[r].Done? && !s.requests[r].Stopped?
  }

  function Apply(pairs: seq<Pair>, s: State, a: Action): State
    requires Enabled(pairs, s, a)
  {
    var p, pair := s.requests[a.r], pairs[a.r];
    match a
    case Look(r) =>
      var found := Pick(Go, Join(s.members, s.members, pair.sender, pair.receiver));
      s.(requests := s.requests[r := if found.Some? then Done(found.value) else NotFound])
    case InsertChannel(r) =>
      s.(creators := s.creators + [r], requests := s.requests[r := HasChannel(|s.creators| + 1)])
    case InsertMessage(r) => s.(requests := s.requests[r := Announced(p.channel)])
    case InsertSender(r) =>
      s.(members := s.members + [Member(p.channel, pair.sender)], requests := s.requests[r := Half(p.channel)])
    case InsertReceiver(r) =>
      s.(members := s.members + [Member(p.channel, pair.receiver)], requests := s.requests[r := Done(p.channel)])
    case Fail(r) => s.(requests := s.requests[r := Stopped])
  }

  ghost predicate CanRun(pairs: seq<Pair>, s: State, run: seq<Action>)
    decreases run
  {
    run != [] ==> Enabled(pairs, s, run[0]) && CanRun(pairs, Apply(pairs, s, run[0]), run[1..])
  }

  function Run(pairs: seq<Pair>, s: State, run: seq<Action>): State
    requires CanRun(pairs, s, run)
    decreases run
  {
    if run == [] then s else Run(pairs, Apply(pairs, s, run[0]), run[1..])
  }

  /** In every run any two distinct users share at most one channel. */
  ghost predicate AlwaysOneChannel(pairs: seq<Pair>) {
    var s0 := InitialState(|pairs|);
    forall run :: CanRun(pairs, s0, run) ==> AtMostOneShared(Run(pairs, s0, run).members)
  }

  /** Two requests between the same two users, from either side. */
  predicate SameUsers(p: Pair, q: Pair) {
    p.sender != p.receiver && (q == p || q == Pair(p.receiver, p.sender))
  }

  // ---------------------------------------------------------------------------------------------
  // Whose memberships a channel has
  // ---------------------------------------------------------------------------------------------

  predicate Inserting(p: Phase) {
    p.HasChannel? || p.Announced? || p.Half?
  }

  ghost predicate CreatorInv(s: State) {
    && (forall c :: 0 <= c < |s.creators| ==>
          var r := s.creators[c]; r < |s.requests| && !s.requests[r].Ready? && !s.requests[r].NotFound?)
    && (forall c, d :: 0 <= c < d < |s.creators| ==> s.creators[c] != s.creators[d])
  }

  ghost predicate ChannelInv(s: State) {
    forall r :: 0 <= r < |s.requests| && Inserting(s.requests[r]) ==>
      1 <= s.requests[r].channel <= |s.creators| && s.creators[s.requests[r].channel - 1] == r
  }

  /** The member is one of the two users of the request that inserted the channel. */
  predicate Belongs(pairs: seq<Pair>, creators: seq<nat>, m: Member) {
    && 1 <= m.channel <= |creators| && creators[m.channel - 1] < |pairs|
    && var pair := pairs[creators[m.channel - 1]]; m.user == pair.sender || m.user == pair.receiver
  }

  /** The channel of a request has no member before its sender is inserted, and then only the sender. */
  ghost predicate MemberInv(pairs: seq<Pair>, s: State)
    requires |s.requests| == |pairs|
  {
    forall r :: 0 <= r < |pairs| && Inserting(s.requests[r]) ==>
      var c := s.requests[r].channel;
      if s.requests[r].Half? then Member(c, pairs[r].sender) in s.members && OnlyMember(s.members, c, pairs[r].sender)
      else NoMember(s.members, c)
  }

  ghost predicate NoMember(members: seq<Member>, c: nat) {
    forall m <- members :: m.channel != c
  }

  ghost predicate OnlyMember(members: seq<Member>, c: nat, user: int) {
    forall m <- members :: m.channel == c ==> m.user == user
  }

  ghost predicate Inv(pairs: seq<Pair>, s: State) {
    && |s.requests| == |pairs|
    && CreatorInv(s) && ChannelInv(s) && MemberInv(pairs, s)
    && forall m <- s.members :: Belongs(pairs, s.creators, m)
  }

  lemma {:induction false} StepCreators(pairs: seq<Pair>, s: State, a: Action)
    requires Inv(pairs, s) && Enabled(pairs, s, a)
    ensures CreatorInv(Apply(pairs, s, a))
  {
  }

  lemma {:induction false} StepChannels(pairs: seq<Pair>, s: State, a: Action)
    requires Inv(pairs, s) && Enabled(pairs, s, a)
    ensures ChannelInv(Apply(pairs, s, a))
  {
    var s' := Apply(pairs, s, a);
    forall r | 0 <= r < |s'.requests| && Inserting(s'.requests[r])
      ensures 1 <= s'.requests[r].channel <= |s'.creators| && s'.creators[s'.requests[r].channel - 1] == r
    {
      assert s'.requests[r] == s.requests[r] || r == a.r;
    }
  }

  // Inserting a member leaves the channels of the other requests alone.
  lemma {:induction false} StepMemberInv(pairs: seq<Pair>, s: State, a: Action, r: nat)
    requires Inv(pairs, s) && Enabled(pairs, s, a) && r < |pairs| && Inserting(Apply(pairs, s, a).requests[r])
    ensures var s' := Apply(pairs, s, a);
            var c := s'.requests[r].channel;
            if s'.requests[r].Half?
            then Member(c, pairs[r].sender) in s'.members && OnlyMember(s'.members, c, pairs[r].sender)
            else NoMember(s'.members, c)
  {
    var s' := Apply(pairs, s, a);
    assert NoMember(s.members, |s.creators| + 1);
    if r != a.r {
      assert s'.requests[r] == s.requests[r];
      assert Inserting(s.requests[a.r]) ==> s.requests[a.r].channel != s.requests[r].channel;
    }
  }

  lemma {:induction false} StepInv(pairs: seq<Pair>, s: State, a: Action)
    requires Inv(pairs, s) && Enabled(pairs, s, a)
    ensures Inv(pairs, Apply(pairs, s, a))
  {
    StepCreators(pairs, s, a);
    StepChannels(pairs, s, a);
    forall r | 0 <= r < |pairs| && Inserting(Apply(pairs, s, a).requests[r])
      ensures var s' := Apply(pairs, s, a);
              var c := s'.requests[r].channel;
              if s'.requests[r].Half?
              then Member(c, pairs[r].sender) in s'.members && OnlyMember(s'.members, c, pairs[r].sender)
              else NoMember(s'.members, c)
    {
      StepMemberInv(pairs, s, a, r);
    }
  }

  lemma {:induction false} RunInv(pairs: seq<Pair>, s: State, run: seq<Action>)
    requires Inv(pairs, s) && CanRun(pairs, s, run)
    ensures Inv(pairs, Run(pairs, s, run))
    decreases run
  {
    if run != [] {
      StepInv(pairs, s, run[0]);
      RunInv(pairs, Apply(pairs, s, run[0]), run[1..]);
    }
  }

  // Two shared channels come from two requests between the same users.
  lemma {:induction false} TwoChannelsTwoRequests(pairs: seq<Pair>, s: State, a: int, b: int, c: nat, d: nat)
    requires Inv(pairs, s) && a != b && c != d && Shared(s.members, c, a, b) && Shared(s.members, d, a, b)
    ensures exists i, j :: 0 <= i < j < |pairs| && SameUsers(pairs[i], pairs[j])
  {
    assert Member(c, a) in s.members && Member(c, b) in s.members;
    assert Member(d, a) in s.members && Member(d, b) in s.members;
    var i, j := s.creators[c - 1], s.creators[d - 1];
    assert i != j;
    assert SameUsers(pairs[i], pairs[j]) && SameUsers(pairs[j], pairs[i]);
  }

  // ---------------------------------------------------------------------------------------------
  // What a lookup finds, and when a second channel appears
  // ---------------------------------------------------------------------------------------------

  /** The lookup answers with a channel that both users are members of, and with nothing exactly when there is
      none; with one shared channel it finds that one. */
  lemma {:induction false} LookFindsExactly(pairs: seq<Pair>, s: State, r: nat)
    requires Enabled(pairs, s, Look(r))
    ensures var p, found := pairs[r], Apply(pairs, s, Look(r)).requests[r];
            && (found == NotFound <==> forall c :: !Shared(s.members, c, p.sender, p.receiver))
            && (found != NotFound ==> found.Done? && Shared(s.members, found.channel, p.sender, p.receiver))
    ensures var p := pairs[r];
            AtMostOneShared(s.members) && p.sender != p.receiver ==>
              forall c ::
                Apply(pairs, s, Look(r)).requests[r] == Done(c) <==> Shared(s.members, c, p.sender, p.receiver)
  {
    var p := pairs[r];
    var rows := Join(s.members, s.members, p.sender, p.receiver);
    forall c ensures c in rows <==> Shared(s.members, c, p.sender, p.receiver) {
      JoinMeaning(s.members, s.members, p.sender, p.receiver, c);
    }
    if rows != [] {
      assert rows[|rows| - 1] in rows;
    } else {
      forall c ensures !Shared(s.members, c, p.sender, p.receiver) {
        assert c !in rows;
      }
    }
  }

  /** The two users of the request are distinct and already share a channel. */
  ghost predicate HaveChannel(pairs: seq<Pair>, s: State, r: nat)
    requires r < |pairs|
  {
    var p := pairs[r];
    p.sender != p.receiver && exists c :: Shared(s.members, c, p.sender, p.receiver)
  }

  // Only the last insert of a request makes its two users share a channel.
  lemma {:induction false} NewShared(pairs: seq<Pair>, s: State, a: Action, x: int, y: int, c: nat)
    requires Inv(pairs, s) && Enabled(pairs, s, a) && x != y
    ensures Shared(Apply(pairs, s, a).members, c, x, y) <==>
              || Shared(s.members, c, x, y)
              || (a.InsertReceiver? && c == s.requests[a.r].channel && SameUsers(Pair(x, y), pairs[a.r]))
  {
    var s' := Apply(pairs, s, a);
    var p := s.requests[a.r];
    if a.InsertSender? {
      assert NoMember(s.members, p.channel);
      assert s'.members == s.members + [Member(p.channel, pairs[a.r].sender)];
    } else if a.InsertReceiver? {
      assert OnlyMember(s.members, p.channel, pairs[a.r].sender);
      assert s'.members == s.members + [Member(p.channel, pairs[a.r].receiver)];
    }
  }

  /** An action gives some two users a second channel exactly when it completes a channel of two users who have
      one. */
  lemma {:induction false} SecondChannelExactly(pairs: seq<Pair>, s: State, a: Action)
    requires Inv(pairs, s) && AtMostOneShared(s.members) && Enabled(pairs, s, a)
    ensures AtMostOneShared(Apply(pairs, s, a).members) <==> !(a.InsertReceiver? && HaveChannel(pairs, s, a.r))
  {
    var s' := Apply(pairs, s, a);
    if a.InsertReceiver? && HaveChannel(pairs, s, a.r) {
      var p, c := pairs[a.r], s.requests[a.r].channel;
      var d :| Shared(s.members, d, p.sender, p.receiver);
      assert OnlyMember(s.members, c, p.sender);
      NewShared(pairs, s, a, p.sender, p.receiver, c);
      NewShared(pairs, s, a, p.sender, p.receiver, d);
      assert c != d;
    } else {
      forall x, y, c, d | x != y && Shared(s'.members, c, x, y) && Shared(s'.members, d, x, y) ensures c == d {
        NewShared(pairs, s, a, x, y, c);
        NewShared(pairs, s, a, x, y, d);
        assert SameUsers(Pair(x, y), pairs[a.r]) ==>
            forall e :: Shared(s.members, e, x, y) <==> Shared(s.members, e, pairs[a.r].sender, pairs[a.r].receiver);
      }
    }
  }

  // ---------------------------------------------------------------------------------------------
  // Requests one after the other
  // ---------------------------------------------------------------------------------------------

  /** The request has looked, found nothing, and is not through with its inserts. */
  predicate Underway(p: Phase) {
    p.NotFound? || Inserting(p)
  }

  /** No two requests between the same two users are under way together. */
  ghost predicate OneAtATime(pairs: seq<Pair>, s: State)
    requires |s.requests| == |pairs|
  {
    forall q, r :: 0 <= q < |pairs| && 0 <= r < |pairs| && q != r && SameUsers(pairs[q], pairs[r]) ==>
      !(Underway(s.requests[q]) && Underway(s.requests[r]))
  }

  ghost predicate AlwaysOneAtATime(pairs: seq<Pair>, s: State, run: seq<Action>)
    requires |s.requests| == |pairs| && CanRun(pairs, s, run)
    decreases run
  {
    OneAtATime(pairs, s) && (run != [] ==> AlwaysOneAtATime(pairs, Apply(pairs, s, run[0]), run[1..]))
  }

  /** Who is under way has no channel yet. */
  ghost predicate NoneYet(pairs: seq<Pair>, s: State)
    requires |s.requests| == |pairs|
  {
    forall r :: 0 <= r < |pairs| && Underway(s.requests[r]) ==> !HaveChannel(pairs, s, r)
  }

  lemma {:induction false} StepNoneYet(pairs: seq<Pair>, s: State, a: Action)
    requires Inv(pairs, s) && NoneYet(pairs, s) && OneAtATime(pairs, s) && Enabled(pairs, s, a)
    ensures NoneYet(pairs, Apply(pairs, s, a))
  {
    var s' := Apply(pairs, s, a);
    forall r | 0 <= r < |pairs| && Underway(s'.requests[r]) ensures !HaveChannel(pairs, s', r) {
      var p := pairs[r];
      if a.Look? && a.r == r {
        LookFindsExactly(pairs, s, r);
        assert s'.members == s.members;
      } else if p.sender != p.receiver {
        assert Underway(s.requests[r]) && !HaveChannel(pairs, s, r);
        forall c ensures !Shared(s'.members, c, p.sender, p.receiver) {
          NewShared(pairs, s, a, p.sender, p.receiver, c);
          assert SameUsers(Pair(p.sender, p.receiver), pairs[a.r]) <==> SameUsers(p, pairs[a.r]);
        }
      }
    }
  }

  lemma {:induction false} OneAtATimeKeepsOne(pairs: seq<Pair>, s: State, run: seq<Action>)
    requires Inv(pairs, s) && NoneYet(pairs, s) && AtMostOneShared(s.members)
    requires CanRun(pairs, s, run) && AlwaysOneAtATime(pairs, s, run)
    ensures AtMostOneShared(Run(pairs, s, run).members)
    decreases run
  {
    if run != [] {
      SecondChannelExactly(pairs, s, run[0]);
      StepNoneYet(pairs, s, run[0]);
      StepInv(pairs, s, run[0]);
      OneAtATimeKeepsOne(pairs, Apply(pairs, s, run[0]), run[1..]);
    }
  }

  /** A run in which no two requests between the same two users are under way together leaves any two users at
      most one channel, however often a pair asks: two channels come only from requests of which both looked
      before either was through. */
  lemma {:induction false} OneAfterTheOther(pairs: seq<Pair>, run: seq<Action>)
    requires CanRun(pairs, InitialState(|pairs|), run) && AlwaysOneAtATime(pairs, InitialState(|pairs|), run)
    ensures AtMostOneShared(Run(pairs, InitialState(|pairs|), run).members)
  {
    OneAtATimeKeepsOne(pairs, InitialState(|pairs|), run);
  }

  /** A request that is not through can go on with its next call, and that call can fail. */
  lemma {:induction false} GoesOnOrFails(pairs: seq<Pair>, s: State, r: nat)
    requires r < |pairs| == |s.requests| && !s.requests[r].Done? && !s.requests[r].Stopped?
    ensures Enabled(pairs, s, Fail(r)) && exists a :: Enabled(pairs, s, a) && a.r == r && !a.Fail?
  {
    match s.requests[r]
    case Ready => assert Enabled(pairs, s, Look(r));
    case NotFound => assert Enabled(pairs, s, InsertChannel(r));
    case HasChannel(_) => assert Enabled(pairs, s, InsertMessage(r));
    case Announced(_) => assert Enabled(pairs, s, InsertSender(r));
    case Half(_) => assert Enabled(pairs, s, InsertReceiver(r));
  }

  /** A request of which a call failed does nothing more: what it inserted stays as it was. */
  lemma {:induction false} FailureEndsTheRequest(pairs: seq<Pair>, s: State, r: nat, run: seq<Action>)
    requires Enabled(pairs, s, Fail(r)) && CanRun(pairs, Apply(pairs, s, Fail(r)), run)
    ensures forall a <- run :: a.r != r
    ensures Apply(pairs, s, Fail(r)).members == s.members && Apply(pairs, s, Fail(r)).creators == s.creators
  {
    StoppedStays(pairs, Apply(pairs, s, Fail(r)), r, run);
  }

  lemma {:induction false} StoppedStays(pairs: seq<Pair>, s: State, r: nat, run: seq<Action>)
    requires r < |s.requests| && s.requests[r].Stopped? && CanRun(pairs, s, run)
    ensures forall a <- run :: a.r != r
    decreases run
  {
    if run != [] {
      StoppedStays(pairs, Apply(pairs, s, run[0]), r, run[1..]);
      assert run == [run[0]] + run[1..];
    }
  }

  // ---------------------------------------------------------------------------------------------
  // Two requests that both look before either inserts
  // ---------------------------------------------------------------------------------------------

  lemma {:induction false} RunCons(pairs: seq<Pair>, s: State, a: Action, rest: seq<Action>)
    requires Enabled(pairs, s, a) && CanRun(pairs, Apply(pairs, s, a), rest)
    ensures CanRun(pairs, s, [a] + rest) && Run(pairs, s, [a] + rest) == Run(pairs, Apply(pairs, s, a), rest)
  {
    assert ([a] + rest)[1..] == rest;
  }

  function AfterInserts(pairs: seq<Pair>, s: State, r: nat): State
    requires r < |pairs| == |s.requests|
  {
    var c := |s.creators| + 1;
    State(s.members + [Member(c, pairs[r].sender), Member(c, pairs[r].receiver)],
          s.creators + [r], s.requests[r := Done(c)])
  }

  // A request that found nothing makes its inserts before anything else in `rest` happens.
  lemma {:induction false} InsertsFirst(pairs: seq<Pair>, s: State, r: nat, rest: seq<Action>)
    returns (run: seq<Action>)
    requires r < |pairs| == |s.requests| && s.requests[r].NotFound?
    requires CanRun(pairs, AfterInserts(pairs, s, r), rest)
    ensures CanRun(pairs, s, run) && Run(pairs, s, run) == Run(pairs, AfterInserts(pairs, s, r), rest)
  {
    var c, pair := |s.creators| + 1, pairs[r];
    var s1 := Apply(pairs, s, InsertChannel(r));
    var s2 := Apply(pairs, s1, InsertMessage(r));
    var s3 := Apply(pairs, s2, InsertSender(r));
    assert s3.members == s.members + [Member(c, pair.sender)];
    assert s3.members + [Member(c, pair.receiver)]
        == s.members + [Member(c, pair.sender), Member(c, pair.receiver)];
    assert Apply(pairs, s3, InsertReceiver(r)) == AfterInserts(pairs, s, r);
    RunCons(pairs, s3, InsertReceiver(r), rest);
    run := [InsertReceiver(r)] + rest;
    RunCons(pairs, s2, InsertSender(r), run);
    run := [InsertSender(r)] + run;
    RunCons(pairs, s1, InsertMessage(r), run);
    run := [InsertMessage(r)] + run;
    RunCons(pairs, s, InsertChannel(r), run);
    run := [InsertChannel(r)] + run;
  }

  lemma {:induction false} TwoChannels(pairs: seq<Pair>, i: nat, j: nat) returns (run: seq<Action>)
    requires i < j < |pairs|
    ensures CanRun(pairs, InitialState(|pairs|), run)
    ensures Run(pairs, InitialState(|pairs|), run).members
         == [Member(1, pairs[i].sender), Member(1, pairs[i].receiver),
             Member(2, pairs[j].sender), Member(2, pairs[j].receiver)]
  {
    var s0 := InitialState(|pairs|);
    var s1 := Apply(pairs, s0, Look(i));
    var s2 := Apply(pairs, s1, Look(j));
    var s3 := AfterInserts(pairs, s2, i);
    var second := InsertsFirst(pairs, s3, j, []);
    var both := InsertsFirst(pairs, s2, i, second);
    RunCons(pairs, s1, Look(j), both);
    RunCons(pairs, s0, Look(i), [Look(j)] + both);
    run := [Look(i)] + ([Look(j)] + both);
    assert Run(pairs, s0, run) == AfterInserts(pairs, s3, j);
  }

  /** When Go's requests interleave and any call may fail, any two distinct users share at most one channel in
      every run exactly when no two of the requests are between the same two users. */
  lemma {:induction false} OneChannelExactly(pairs: seq<Pair>)
    ensures AlwaysOneChannel(pairs) <==> forall i, j :: 0 <= i < j < |pairs| ==> !SameUsers(pairs[i], pairs[j])
  {
    var s0 := InitialState(|pairs|);
    if i, j :| 0 <= i < j < |pairs| && SameUsers(pairs[i], pairs[j]) {
      var run := TwoChannels(pairs, i, j);
      var members, p := Run(pairs, s0, run).members, pairs[i];
      assert members[0] in members && members[1] in members && members[2] in members && members[3] in members;
      assert Shared(members, 1, p.sender, p.receiver) && Shared(members, 2, p.sender, p.receiver);
    } else {
      forall run | CanRun(pairs, s0, run) ensures AtMostOneShared(Run(pairs, s0, run).members) {
        RunInv(pairs, s0, run);
        var s := Run(pairs, s0, run);
        forall a, b, c, d | a != b && Shared(s.members, c, a, b) && Shared(s.members, d, a, b) ensures c == d {
          if c != d {
            TwoChannelsTwoRequests(pairs, s, a, b, c, d);
          }
        }
      }
    }
  }
}
