// The chat servers slack/main.go and slack/chat_server.cpp over their tables.
//
// A request is handled in one piece: the Go handlers are taken one at a time, the C++ ones hold dbMutex.
// The inserts of a handler are not in a transaction, so a handler that fails half-way leaves what it had
// inserted. The foreign keys are those of the schema: membership.user_id and message.sender_id refer to
// user, channel_id to channel. Both servers may work on the same database.
module Chat {
  import opened Options
  import opened Pages
  import Sums

  datatype Server = Go | Cpp

  datatype User = User(id: int, name: string)

  datatype Member = Member(channel: nat, user: int)

  datatype Tables = Tables(
    users: seq<User>,
    channels: seq<nat>,
    members: seq<Member>,
    messages: seq<Message>,
    nextUser: int,              // the auto-increment counters
    nextChannel: nat,
    nextMessage: nat)

  /** select ... from user where userName = name. The query has no order, so any of the rows of this name may
      come first; `row` is the choice of the database. */
  datatype Lookup = Lookup(name: string, row: nat)

  /** History(c) stands for the newest rows of channel c, as module Pages tells. */
  datatype Reply = UserCreated(id: int) | History(channel: nat) | Opened(channel: nat) | Accepted | BadRequest | Failed

  /** What a handler did that others can see, in order. */
  datatype Effect = Persisted(message: Message) | Emit(user: int, payload: string)

  datatype Outcome = Outcome(tables: Tables, reply: Reply, effects: seq<Effect>)

  /** `inserts` is the number of inserts the database accepts before it returns an error, if that many are
      made; `reads` says whether the queries after the insert succeed. */
  datatype Request =
    | CreateUser(user: Lookup, inserts: nat)
    | CreateChannel(server: Server, sender: Lookup, receiver: Lookup, inserts: nat, now: nat)
    | SendMessage(server: Server, senderId: int, channel: nat, text: string, inserts: nat, readOk: bool, now: nat)
    | Heartbeat(uid: int, name: string)

  // ---------------------------------------------------------------------------------------------
  // Queries
  // ---------------------------------------------------------------------------------------------

  /** The ids of the rows with this name, in insertion order. */
  function Named(users: seq<User>, name: string): seq<int> {
    if users == [] then []
    else
      var last := users[|users| - 1];
      Named(users[..|users| - 1], name) + if last.name == name then [last.id] else []
  }

  /** The id in the first row of the answer, or 0: an id no row has. */
  function FindUser(users: seq<User>, user: Lookup): int {
    var ids := Named(users, user.name);
    if ids == [] then 0 else if user.row < |ids| then ids[user.row] else ids[0]
  }

  predicate UserExists(t: Tables, id: int) {
    exists u <- t.users :: u.id == id
  }

  /** The users of a channel, one entry per membership row. */
  function UsersOf(members: seq<Member>, channel: nat): seq<int> {
    if members == [] then []
    else
      var last := members[|members| - 1];
      UsersOf(members[..|members| - 1], channel) + if last.channel == channel then [last.user] else []
  }

  function Matches(members: seq<Member>, channel: nat, user: int): seq<nat> {
    if members == [] then []
    else
      Matches(members[..|members| - 1], channel, user)
      + if members[|members| - 1] == Member(channel, user) then [channel] else []
  }

  /** channel JOIN membership m1 JOIN membership m2 WHERE m1.user_id = a AND m2.user_id = b, the rows m1
      ranging over `some`. */
  function Join(some: seq<Member>, all: seq<Member>, a: int, b: int): seq<nat> {
    if some == [] then []
    else
      var last := some[|some| - 1];
      Join(some[..|some| - 1], all, a, b) + if last.user == a then Matches(all, last.channel, b) else []
  }

  function Common(t: Tables, a: int, b: int): seq<nat> {
    Join(t.members, t.members, a, b)
  }

  /** Go keeps the last row of the result, C++ takes the first. */
  function Pick(server: Server, rows: seq<nat>): Option<nat> {
    if rows == [] then None else Some(if server.Go? then rows[|rows| - 1] else rows[0])
  }

  function Except(users: seq<int>, sender: int): seq<int> {
    if users == [] then []
    else Except(users[..|users| - 1], sender) + if users[|users| - 1] != sender then [users[|users| - 1]] else []
  }

  function ChannelRows(messages: seq<Message>, channel: nat): seq<Message> {
    if messages == [] then []
    else
      var last := messages[|messages| - 1];
      ChannelRows(messages[..|messages| - 1], channel) + if last.channel == channel then [last] else []
  }

  function NameOf(users: seq<User>, id: int, default: string): string {
    if users == [] then default else if users[0].id == id then users[0].name else NameOf(users[1..], id, default)
  }

  // ---------------------------------------------------------------------------------------------
  // Handlers
  // ---------------------------------------------------------------------------------------------

  function HandleCreateUser(t: Tables, user: Lookup, inserts: nat): Outcome {
    var id := FindUser(t.users, user);
    if id != 0 && user.name != "" then Outcome(t, UserCreated(id), [])
    else if inserts == 0 then Outcome(t, Failed, [])
    else
      Outcome(t.(users := t.users + [User(t.nextUser, user.name)], nextUser := t.nextUser + 1),
              UserCreated(t.nextUser), [])
  }

  function AddMessage(t: Tables, sender: int, channel: nat, text: string, now: nat): Tables {
    t.(messages := t.messages + [Message(t.nextMessage, sender, channel, text, now)], nextMessage := t.nextMessage + 1)
  }

  function AddMember(t: Tables, channel: nat, user: int): Tables {
    t.(members := t.members + [Member(channel, user)])
  }

  function CreatedText(receiver: string): string {
    "channel created b/w you and " + receiver
  }

  /** The inserts that create a channel: channel, message, two memberships. */
  function OpenChannel(server: Server, t: Tables, sender: Lookup, receiver: Lookup, inserts: nat, now: nat): Outcome {
    var sid, rid := FindUser(t.users, sender), FindUser(t.users, receiver);
    if inserts == 0 then Outcome(t, Failed, [])
    else
      var c := t.nextChannel;
      var t1 := t.(channels := t.channels + [c], nextChannel := c + 1);
      if inserts == 1 || !UserExists(t, sid) then Outcome(t1, Failed, [])
      else
        var t2 := AddMessage(t1, sid, c, CreatedText(receiver.name), now);
        var persisted := Persisted(t2.messages[|t.messages|]);
        var emit := Emit(rid, sender.name + ":" + CreatedText(receiver.name));
        var early := if server.Go? then [persisted, emit] else [persisted];
        if inserts == 2 then Outcome(t2, Failed, early)
        else
          var t3 := AddMember(t2, c, sid);
          if inserts == 3 || !UserExists(t, rid) then Outcome(t3, Failed, early)
          else Outcome(AddMember(t3, c, rid), Opened(c), [persisted, emit])
  }

  function HandleCreateChannel(server: Server, t: Tables, sender: Lookup, receiver: Lookup, inserts: nat,
          now: nat): Outcome {
    var rows := Common(t, FindUser(t.users, sender), FindUser(t.users, receiver));
    match Pick(server, rows)
    case Some(c) => Outcome(t, History(c), [])
    case None => OpenChannel(server, t, sender, receiver, inserts, now)
  }

  function EmitTo(users: seq<int>, payload: string): (es: seq<Effect>)
    ensures |es| == |users|
    ensures forall i :: 0 <= i < |users| ==> es[i] == Emit(users[i], payload)
  {
    seq(|users|, i requires 0 <= i < |users| => Emit(users[i], payload))
  }

  function HandleSendMessage(server: Server, t: Tables, sender: int, channel: nat, text: string, inserts: nat,
          readOk: bool, now: nat): Outcome {
    if server.Cpp? && text == "" then Outcome(t, BadRequest, [])
    else if inserts == 0 || !UserExists(t, sender) || channel !in t.channels then Outcome(t, Failed, [])
    else
      var t1 := AddMessage(t, sender, channel, text, now);
      var persisted := [Persisted(t1.messages[|t.messages|])];
      if !readOk then Outcome(t1, Failed, persisted)
      else
        var name := NameOf(t.users, sender, if server.Cpp? then "unknown" else "");
        Outcome(t1, Accepted, persisted + EmitTo(Except(UsersOf(t.members, channel), sender), name + ":" + text))
  }

  /** insert ... on duplicate key update; the timestamp is the subject of module Presence. An inserted id of 0
      asks the database for the next one. */
  function HandleHeartbeat(t: Tables, uid: int, name: string): Outcome {
    var id := if uid == 0 then t.nextUser else uid;
    if UserExists(t, id) then Outcome(t, Accepted, [])
    else
      Outcome(t.(users := t.users + [User(id, name)], nextUser := if id >= t.nextUser then id + 1 else t.nextUser),
              Accepted, [])
  }

  function Handle(t: Tables, r: Request): Outcome {
    match r
    case CreateUser(user, inserts) => HandleCreateUser(t, user, inserts)
    case CreateChannel(server, sender, receiver, inserts, now) =>
      HandleCreateChannel(server, t, sender, receiver, inserts, now)
    case SendMessage(server, sender, channel, text, inserts, readOk, now) =>
      HandleSendMessage(server, t, sender, channel, text, inserts, readOk, now)
    case Heartbeat(uid, name) => HandleHeartbeat(t, uid, name)
  }

  const EMPTY := Tables([], [], [], [], 1, 1, 1)

  function Serve(t: Tables, run: seq<Request>): Tables
    decreases run
  {
    if run == [] then t else Serve(Handle(t, run[0]).tables, run[1..])
  }

  // ---------------------------------------------------------------------------------------------
  // The invariant
  // ---------------------------------------------------------------------------------------------

  /** Both users are members of the channel. */
  predicate Shared(members: seq<Member>, channel: nat, a: int, b: int) {
    Member(channel, a) in members && Member(channel, b) in members
  }

  ghost predicate AtMostOneShared(members: seq<Member>) {
    forall a, b, c, d :: a != b && Shared(members, c, a, b) && Shared(members, d, a, b) ==> c == d
  }

  ghost predicate IdInv(t: Tables) {
    && t.nextUser > 0 && t.nextChannel > 0
    && (forall u <- t.users :: u.id < t.nextUser && u.id != 0)
    && (forall i, j :: 0 <= i < j < |t.users| ==> t.users[i].id != t.users[j].id)
    && (forall c <- t.channels :: 0 < c < t.nextChannel)
    && (forall m <- t.members :: m.channel in t.channels && UserExists(t, m.user))
    && (forall m <- t.messages :: m.id < t.nextMessage && m.channel in t.channels)
    && (forall i, j :: 0 <= i < j < |t.messages| ==> t.messages[i].id < t.messages[j].id)
  }

  ghost predicate PairInv(members: seq<Member>) {
    forall c :: |UsersOf(members, c)| <= 2
  }

  ghost predicate Inv(t: Tables) {
    IdInv(t) && PairInv(t.members) && AtMostOneShared(t.members)
  }

  // ---------------------------------------------------------------------------------------------
  // What the queries mean
  // ---------------------------------------------------------------------------------------------

  lemma {:induction false} UsersOfMeaning(members: seq<Member>, channel: nat, user: int)
    ensures user in UsersOf(members, channel) <==> Member(channel, user) in members
  {
    if members != [] {
      UsersOfMeaning(members[..|members| - 1], channel, user);
      assert members == members[..|members| - 1] + [members[|members| - 1]];
    }
  }

  lemma {:induction false} NobodyYet(members: seq<Member>, channel: nat)
    requires forall m <- members :: m.channel != channel
    ensures UsersOf(members, channel) == []
  {
    if members != [] {
      NobodyYet(members[..|members| - 1], channel);
    }
  }

  lemma {:induction false} MatchesMeaning(members: seq<Member>, channel: nat, user: int, c: nat)
    ensures c in Matches(members, channel, user) <==> c == channel && Member(channel, user) in members
  {
    if members != [] {
      MatchesMeaning(members[..|members| - 1], channel, user, c);
      assert members == members[..|members| - 1] + [members[|members| - 1]];
    }
  }

  lemma {:induction false} JoinMeaning(some: seq<Member>, all: seq<Member>, a: int, b: int, c: nat)
    ensures c in Join(some, all, a, b) <==> Member(c, a) in some && Member(c, b) in all
  {
    if some != [] {
      var init, last := some[..|some| - 1], some[|some| - 1];
      JoinMeaning(init, all, a, b, c);
      MatchesMeaning(all, last.channel, b, c);
      assert some == init + [last];
    }
  }

  lemma {:induction false} NamedMeaning(users: seq<User>, name: string, id: int)
    ensures id in Named(users, name) <==> User(id, name) in users
  {
    if users != [] {
      NamedMeaning(users[..|users| - 1], name, id);
      assert users == users[..|users| - 1] + [users[|users| - 1]];
    }
  }

  lemma {:induction false} FindUserMeaning(users: seq<User>, user: Lookup)
    requires forall u <- users :: u.id != 0
    ensures FindUser(users, user) != 0 <==> exists u <- users :: u.name == user.name
    ensures FindUser(users, user) != 0 ==> User(FindUser(users, user), user.name) in users
  {
    var ids := Named(users, user.name);
    forall id ensures id in ids <==> User(id, user.name) in users {
      NamedMeaning(users, user.name, id);
    }
    if ids != [] {
      assert FindUser(users, user) in ids;
    }
    if u :| u in users && u.name == user.name {
      assert User(u.id, user.name) in users;
    }
  }

  // ---------------------------------------------------------------------------------------------
  // Every handler keeps the invariant, however far it gets
  // ---------------------------------------------------------------------------------------------

  lemma {:induction false} AddUserInv(t: Tables, u: User, next: int)
    requires Inv(t) && u.id != 0 && !UserExists(t, u.id) && next > u.id && next >= t.nextUser
    ensures Inv(t.(users := t.users + [u], nextUser := next))
  {
    var t' := t.(users := t.users + [u], nextUser := next);
    forall m | m in t'.members ensures UserExists(t', m.user) {
      var v :| v in t.users && v.id == m.user;
      assert v in t'.users;
    }
    forall i | 0 <= i < |t.users| ensures t.users[i].id != u.id {
      assert t.users[i] in t.users;
    }
  }

  lemma {:induction false} AddChannelInv(t: Tables)
    requires Inv(t)
    ensures var t' := t.(channels := t.channels + [t.nextChannel], nextChannel := t.nextChannel + 1);
            Inv(t') && UsersOf(t'.members, t.nextChannel) == []
  {
    var t' := t.(channels := t.channels + [t.nextChannel], nextChannel := t.nextChannel + 1);
    NobodyYet(t.members, t.nextChannel);
    assert forall x :: UserExists(t', x) <==> UserExists(t, x);
  }

  lemma {:induction false} AddMessageInv(t: Tables, sender: int, channel: nat, text: string, now: nat)
    requires Inv(t) && channel in t.channels
    ensures Inv(AddMessage(t, sender, channel, text, now))
  {
    var t' := AddMessage(t, sender, channel, text, now);
    assert forall x :: UserExists(t', x) <==> UserExists(t, x);
    forall i | 0 <= i < |t.messages| ensures t.messages[i].id < t.nextMessage {
      assert t.messages[i] in t.messages;
    }
  }

  // A member more makes no second shared channel, if it shares none with the members already there.
  lemma {:induction false} StillAtMostOneShared(members: seq<Member>, channel: nat, user: int)
    requires AtMostOneShared(members)
    requires forall v, d :: v != user && Member(channel, v) in members ==> !Shared(members, d, user, v)
    ensures AtMostOneShared(members + [Member(channel, user)])
  {
    var members' := members + [Member(channel, user)];
    forall a, b, c, d | a != b && Shared(members', c, a, b) && Shared(members', d, a, b) ensures c == d {
      if Shared(members, c, a, b) && Shared(members, d, a, b) {
        assert c == d;
      } else if !Shared(members, c, a, b) && c != d {
        OtherIsMember(members, channel, user, c, d, a, b);
      } else if !Shared(members, d, a, b) && c != d {
        OtherIsMember(members, channel, user, d, c, a, b);
      }
    }
  }

  lemma {:induction false} OtherIsMember(members: seq<Member>, channel: nat, user: int, c: nat, d: nat, a: int, b: int)
    requires a != b && Shared(members + [Member(channel, user)], c, a, b)
    requires Shared(members + [Member(channel, user)], d, a, b)
    requires !Shared(members, c, a, b)
    requires forall v, e :: v != user && Member(channel, v) in members ==> !Shared(members, e, user, v)
    ensures c == d
  {
    assert c == channel && (a == user || b == user);
    var v := if a == user then b else a;
    assert Member(channel, v) in members;
    assert d == channel || Shared(members, d, user, v);
  }

  lemma {:induction false} AddMemberInv(t: Tables, channel: nat, user: int)
    requires Inv(t) && channel in t.channels && UserExists(t, user) && |UsersOf(t.members, channel)| <= 1
    requires forall v, d :: v != user && Member(channel, v) in t.members ==> !Shared(t.members, d, user, v)
    ensures Inv(AddMember(t, channel, user))
  {
    var t' := AddMember(t, channel, user);
    forall c ensures |UsersOf(t'.members, c)| <= 2 {
    }
    StillAtMostOneShared(t.members, channel, user);
    assert forall x :: UserExists(t', x) <==> UserExists(t, x);
  }

  lemma {:induction false} OpenChannelInv(server: Server, t: Tables, sender: Lookup, receiver: Lookup,
          inserts: nat, now: nat)
    requires Inv(t) && Common(t, FindUser(t.users, sender), FindUser(t.users, receiver)) == []
    ensures Inv(OpenChannel(server, t, sender, receiver, inserts, now).tables)
  {
    var sid, rid := FindUser(t.users, sender), FindUser(t.users, receiver);
    var c := t.nextChannel;
    AddChannelInv(t);
    var t1 := t.(channels := t.channels + [c], nextChannel := c + 1);
    assert UserExists(t1, sid) <==> UserExists(t, sid);
    AddMessageInv(t1, sid, c, CreatedText(receiver.name), now);
    var t2 := AddMessage(t1, sid, c, CreatedText(receiver.name), now);
    if UserExists(t, sid) {
      assert UserExists(t2, sid);
      forall v ensures Member(c, v) !in t2.members {
        UsersOfMeaning(t2.members, c, v);
      }
      AddMemberInv(t2, c, sid);
      if UserExists(t, rid) {
        SecondMember(t2, c, sid, rid);
      }
    }
  }

  lemma {:induction false} SecondMember(t: Tables, c: nat, sid: int, rid: int)
    requires Inv(t) && c in t.channels && UsersOf(t.members, c) == [] && UserExists(t, rid)
    requires Common(t, sid, rid) == []
    requires Inv(AddMember(t, c, sid))
    ensures Inv(AddMember(AddMember(t, c, sid), c, rid))
  {
    var t' := AddMember(t, c, sid);
    assert UserExists(t', rid);
    forall v, d | v != rid && Member(c, v) in t'.members ensures !Shared(t'.members, d, rid, v) {
      UsersOfMeaning(t.members, c, v);
      UsersOfMeaning(t.members, c, rid);
      JoinMeaning(t.members, t.members, sid, rid, d);
      assert v == sid;
    }
    AddMemberInv(t', c, rid);
  }

  lemma {:induction false} HeartbeatInv(t: Tables, uid: int, name: string)
    requires Inv(t)
    ensures Inv(HandleHeartbeat(t, uid, name).tables)
  {
    var id := if uid == 0 then t.nextUser else uid;
    assert !UserExists(t, t.nextUser);
    if !UserExists(t, id) {
      AddUserInv(t, User(id, name), if id >= t.nextUser then id + 1 else t.nextUser);
    }
  }

  lemma {:induction false} HandleInv(t: Tables, r: Request)
    requires Inv(t)
    ensures Inv(Handle(t, r).tables)
  {
    match r
    case CreateUser(user, _) =>
      assert !UserExists(t, t.nextUser);
      AddUserInv(t, User(t.nextUser, user.name), t.nextUser + 1);
    case CreateChannel(server, sender, receiver, inserts, now) =>
      if Common(t, FindUser(t.users, sender), FindUser(t.users, receiver)) == [] {
        OpenChannelInv(server, t, sender, receiver, inserts, now);
      }
    case SendMessage(_, sender, channel, text, _, _, now) =>
      if channel in t.channels {
        AddMessageInv(t, sender, channel, text, now);
      }
    case Heartbeat(uid, name) => HeartbeatInv(t, uid, name);
  }

  lemma {:induction false} ServeInv(t: Tables, run: seq<Request>)
    requires Inv(t)
    ensures Inv(Serve(t, run))
    decreases run
  {
    if run != [] {
      HandleInv(t, run[0]);
      ServeInv(Handle(t, run[0]).tables, run[1..]);
    }
  }

  lemma {:induction false} EmptyInv()
    ensures Inv(EMPTY)
  {
  }

  // ---------------------------------------------------------------------------------------------
  // One channel per pair
  // ---------------------------------------------------------------------------------------------

  /** After any run, whatever failed half-way, two distinct users share at most one channel. */
  lemma {:induction false} OneChannelPerPair(run: seq<Request>, a: int, b: int, c: nat, d: nat)
    requires a != b
    requires Shared(Serve(EMPTY, run).members, c, a, b) && Shared(Serve(EMPTY, run).members, d, a, b)
    ensures c == d
  {
    EmptyInv();
    ServeInv(EMPTY, run);
  }

  /** Both servers pick the shared channel of two distinct users, from whichever side they are asked. */
  lemma {:induction false} PickIsTheSharedChannel(server: Server, t: Tables, a: int, b: int, c: nat)
    requires Inv(t) && a != b
    ensures Pick(server, Common(t, a, b)) == Some(c) <==> Shared(t.members, c, a, b)
    ensures forall d <- Common(t, a, b) :: Shared(t.members, d, a, b)
  {
    forall d ensures d in Common(t, a, b) <==> Shared(t.members, d, a, b) {
      JoinMeaning(t.members, t.members, a, b, d);
    }
    var rows := Common(t, a, b);
    if rows != [] {
      assert rows[0] in rows && rows[|rows| - 1] in rows;
    }
  }

  lemma {:induction false} PicksAgree(t: Tables, a: int, b: int)
    requires Inv(t) && a != b
    ensures Pick(Go, Common(t, a, b)) == Pick(Cpp, Common(t, a, b))
         == Pick(Go, Common(t, b, a)) == Pick(Cpp, Common(t, b, a))
  {
    PicksShared(Go, t, a, b);
    PicksShared(Cpp, t, a, b);
    PicksShared(Go, t, b, a);
    PicksShared(Cpp, t, b, a);
  }

  ghost predicate IsShared(p: Option<nat>, members: seq<Member>, a: int, b: int) {
    forall c: nat :: p == Some(c) <==> Shared(members, c, a, b)
  }

  lemma {:induction false} PicksShared(server: Server, t: Tables, a: int, b: int)
    requires Inv(t) && a != b
    ensures IsShared(Pick(server, Common(t, a, b)), t.members, a, b)
    ensures IsShared(Pick(server, Common(t, a, b)), t.members, b, a)
  {
    forall c: nat
      ensures Pick(server, Common(t, a, b)) == Some(c) <==> Shared(t.members, c, a, b)
      ensures Shared(t.members, c, b, a) <==> Shared(t.members, c, a, b)
    {
      PickIsTheSharedChannel(server, t, a, b, c);
    }
  }

  // ---------------------------------------------------------------------------------------------
  // Tables only grow
  // ---------------------------------------------------------------------------------------------

  ghost predicate Grows(t: Tables, t': Tables) {
    t.users <= t'.users && t.members <= t'.members && t.messages <= t'.messages && t.nextUser <= t'.nextUser
  }

  lemma {:induction false} HandleGrows(t: Tables, r: Request)
    ensures Grows(t, Handle(t, r).tables)
  {
  }

  lemma {:induction false} ServeGrows(t: Tables, run: seq<Request>)
    ensures Grows(t, Serve(t, run))
    decreases run
  {
    if run != [] {
      HandleGrows(t, run[0]);
      ServeGrows(Handle(t, run[0]).tables, run[1..]);
    }
  }

  // ---------------------------------------------------------------------------------------------
  // Names
  // ---------------------------------------------------------------------------------------------

  /** The request adds one more row of a name that has one: a heartbeat under an id no row has, or another user
      with the empty name. */
  predicate AddsRow(t: Tables, r: Request, name: string) {
    match r
    case Heartbeat(uid, n) => n == name && !UserExists(t, uid)
    case CreateUser(user, inserts) => user.name == name == "" && inserts > 0
    case _ => false
  }

  ghost predicate NoRowAdded(t: Tables, run: seq<Request>, name: string)
    decreases run
  {
    run != [] ==> !AddsRow(t, run[0], name) && NoRowAdded(Handle(t, run[0]).tables, run[1..], name)
  }

  lemma {:induction false} NamedSnoc(users: seq<User>, u: User, name: string)
    ensures Named(users + [u], name) == Named(users, name) + if u.name == name then [u.id] else []
  {
    assert (users + [u])[..|users|] == users;
  }

  lemma {:induction false} CreateUserNamed(t: Tables, user: Lookup, inserts: nat, name: string)
    requires Inv(t) && Named(t.users, name) != []
    ensures var ids, ids' := Named(t.users, name), Named(HandleCreateUser(t, user, inserts).tables.users, name);
            ids' == ids + if user.name == name == "" && inserts > 0 then [t.nextUser] else []
  {
    NamedSnoc(t.users, User(t.nextUser, user.name), name);
    if user.name == name {
      assert FindUser(t.users, user) in Named(t.users, name);
      NamedMeaning(t.users, name, FindUser(t.users, user));
    }
  }

  lemma {:induction false} HeartbeatNamed(t: Tables, uid: int, n: string, name: string)
    requires Inv(t)
    ensures var ids, ids' := Named(t.users, name), Named(HandleHeartbeat(t, uid, n).tables.users, name);
            ids' == ids + if n == name && !UserExists(t, uid) then [if uid == 0 then t.nextUser else uid] else []
  {
    assert !UserExists(t, 0) && !UserExists(t, t.nextUser);
    NamedSnoc(t.users, User(if uid == 0 then t.nextUser else uid, n), name);
  }

  lemma {:induction false} HandleNamed(t: Tables, r: Request, name: string)
    requires Inv(t) && Named(t.users, name) != []
    ensures var ids, ids' := Named(t.users, name), Named(Handle(t, r).tables.users, name);
            if AddsRow(t, r, name) then |ids'| == |ids| + 1 && ids <= ids' else ids' == ids
  {
    match r
    case CreateUser(user, inserts) => CreateUserNamed(t, user, inserts, name);
    case Heartbeat(uid, n) => HeartbeatNamed(t, uid, n, name);
    case _ => assert Handle(t, r).tables.users == t.users;
  }

  lemma {:induction false} ServeNamed(t: Tables, run: seq<Request>, name: string)
    requires Inv(t) && Named(t.users, name) != []
    ensures var ids, ids' := Named(t.users, name), Named(Serve(t, run).users, name);
            ids <= ids' && (ids' == ids <==> NoRowAdded(t, run, name))
    decreases run
  {
    if run != [] {
      HandleNamed(t, run[0], name);
      HandleInv(t, run[0]);
      ServeNamed(Handle(t, run[0]).tables, run[1..], name);
    }
  }

  lemma {:induction false} NamedDistinct(users: seq<User>, name: string)
    requires forall i, j :: 0 <= i < j < |users| ==> users[i].id != users[j].id
    ensures var ids := Named(users, name); forall i, j :: 0 <= i < j < |ids| ==> ids[i] != ids[j]
  {
    if users != [] {
      var init, last := users[..|users| - 1], users[|users| - 1];
      NamedDistinct(init, name);
      var ids := Named(init, name);
      forall i | 0 <= i < |ids| ensures ids[i] != last.id {
        NamedMeaning(init, name, ids[i]);
        var k :| 0 <= k < |init| && init[k] == User(ids[i], name);
        assert users[k] == init[k];
      }
      var all := ids + if last.name == name then [last.id] else [];
      assert Named(users, name) == all;
      forall i, j | 0 <= i < j < |all| ensures all[i] != all[j] {
        assert all[i] == ids[i] && (j < |ids| ==> all[j] == ids[j]);
      }
    }
  }

  /** Heartbeats come only under ids known at the start or returned by a createUser of the run, as those that the
      page sends. */
  ghost predicate BeatsAreSignedUp(t: Tables, run: seq<Request>, known: set<int>)
    decreases run
  {
    run != [] ==>
      && (run[0].Heartbeat? ==> run[0].uid in known)
      && var o := Handle(t, run[0]);
         BeatsAreSignedUp(o.tables, run[1..], if o.reply.UserCreated? then known + {o.reply.id} else known)
  }

  lemma {:induction false} SignedUpStay(t: Tables, r: Request, known: set<int>)
    requires Inv(t) && forall id <- known :: UserExists(t, id)
    ensures var o := Handle(t, r);
            && (forall id <- known :: UserExists(o.tables, id))
            && (o.reply.UserCreated? ==> UserExists(o.tables, o.reply.id))
  {
    var o := Handle(t, r);
    HandleGrows(t, r);
    forall id | id in known ensures UserExists(o.tables, id) {
      var u :| u in t.users && u.id == id;
      assert u in o.tables.users;
    }
    if r.CreateUser? {
      FindUserMeaning(t.users, r.user);
      assert r.inserts > 0 ==> User(t.nextUser, r.user.name) in t.users + [User(t.nextUser, r.user.name)];
    }
  }

  /** Heartbeats of users who signed up, before the run or in it, add no second row of a nonempty name. */
  lemma {:induction false} KnownHeartbeatsAddNoRow(t: Tables, run: seq<Request>, known: set<int>, name: string)
    requires Inv(t) && name != ""
    requires (forall id <- known :: UserExists(t, id)) && BeatsAreSignedUp(t, run, known)
    ensures NoRowAdded(t, run, name)
    decreases run
  {
    if run != [] {
      var o := Handle(t, run[0]);
      SignedUpStay(t, run[0], known);
      HandleInv(t, run[0]);
      KnownHeartbeatsAddNoRow(o.tables, run[1..], if o.reply.UserCreated? then known + {o.reply.id} else known, name);
    }
  }

  lemma {:induction false} CreateUserAddsOne(t: Tables, user: Lookup, inserts: nat, name: string)
    ensures |Named(HandleCreateUser(t, user, inserts).tables.users, name)| <= |Named(t.users, name)| + 1
  {
    NamedSnoc(t.users, User(t.nextUser, user.name), name);
    var after := HandleCreateUser(t, user, inserts).tables.users;
    assert after == t.users || after == t.users + [User(t.nextUser, user.name)];
  }

  lemma {:induction false} FirstRow(t: Tables, r: Request, name: string)
    requires Inv(t) && Named(t.users, name) == []
    ensures |Named(Handle(t, r).tables.users, name)| <= 1
  {
    match r
    case CreateUser(user, inserts) => CreateUserAddsOne(t, user, inserts, name);
    case Heartbeat(uid, n) => HeartbeatNamed(t, uid, n, name);
    case _ => assert Handle(t, r).tables.users == t.users;
  }

  lemma {:induction false} AtMostOneRowStays(t: Tables, run: seq<Request>, name: string)
    requires Inv(t) && |Named(t.users, name)| <= 1 && NoRowAdded(t, run, name)
    ensures |Named(Serve(t, run).users, name)| <= 1
    decreases run
  {
    if run != [] {
      if Named(t.users, name) == [] {
        FirstRow(t, run[0], name);
      } else {
        HandleNamed(t, run[0], name);
      }
      HandleInv(t, run[0]);
      AtMostOneRowStays(Handle(t, run[0]).tables, run[1..], name);
    }
  }

  /** If every heartbeat is of a user whom createUser returned before, no nonempty name ever has two rows. */
  lemma {:induction false} NamesAreUnique(run: seq<Request>, name: string)
    requires BeatsAreSignedUp(EMPTY, run, {}) && name != ""
    ensures |Named(Serve(EMPTY, run).users, name)| <= 1
  {
    EmptyInv();
    KnownHeartbeatsAddNoRow(EMPTY, run, {}, name);
    AtMostOneRowStays(EMPTY, run, name);
  }

  /** Every createChannel of the two names, on either server, from either side and whichever rows of the names
      come first, finds this channel and changes nothing. */
  ghost predicate AlwaysFinds(t: Tables, na: string, nb: string, c: nat) {
    forall server, i, j, inserts, now ::
      && HandleCreateChannel(server, t, Lookup(na, i), Lookup(nb, j), inserts, now) == Outcome(t, History(c), [])
      && HandleCreateChannel(server, t, Lookup(nb, j), Lookup(na, i), inserts, now) == Outcome(t, History(c), [])
  }

  // With one row for each name, the channel of the two is found.
  lemma {:induction false} OneRowFinds(t: Tables, na: string, nb: string, a: int, b: int, c: nat)
    requires Inv(t) && a != b && Shared(t.members, c, a, b)
    requires Named(t.users, na) == [a] && Named(t.users, nb) == [b]
    ensures AlwaysFinds(t, na, nb, c)
  {
    forall server, i, j, inserts, now
      ensures HandleCreateChannel(server, t, Lookup(na, i), Lookup(nb, j), inserts, now) == Outcome(t, History(c), [])
      ensures HandleCreateChannel(server, t, Lookup(nb, j), Lookup(na, i), inserts, now) == Outcome(t, History(c), [])
    {
      PickIsTheSharedChannel(server, t, a, b, c);
      PickIsTheSharedChannel(server, t, b, a, c);
    }
  }

  // With two rows for one name, another user may be found, who is not in the channel.
  lemma {:induction false} TwoRowsMiss(t: Tables, na: string, nb: string, a: int, b: int, c: nat)
    requires Inv(t) && a != b && Shared(t.members, c, a, b)
    requires var ids := Named(t.users, na); |ids| > 1 && ids[0] == a && b !in ids
    requires var ids := Named(t.users, nb); ids != [] && ids[0] == b
    ensures !AlwaysFinds(t, na, nb, c) && !AlwaysFinds(t, nb, na, c)
  {
    NamedDistinct(t.users, na);
    var x := FindUser(t.users, Lookup(na, 1));
    assert x == Named(t.users, na)[1] && x != a && x != b;
    assert FindUser(t.users, Lookup(nb, 0)) == b;
    OnlyTheOther(t, c, b, a);
    UsersOfMeaning(t.members, c, x);
    ExceptMeaning(UsersOf(t.members, c), b, x);
    PickIsTheSharedChannel(Go, t, x, b, c);
    var o := HandleCreateChannel(Go, t, Lookup(na, 1), Lookup(nb, 0), 0, 0);
    assert o != Outcome(t, History(c), []);
  }

  // A user has one name.
  lemma {:induction false} OneNameEach(t: Tables, na: string, nb: string, id: int)
    requires Inv(t) && id in Named(t.users, na) && id in Named(t.users, nb)
    ensures na == nb
  {
    NamedMeaning(t.users, na, id);
    NamedMeaning(t.users, nb, id);
    var i :| 0 <= i < |t.users| && t.users[i] == User(id, na);
    var j :| 0 <= j < |t.users| && t.users[j] == User(id, nb);
    assert i == j;
  }

  /** Once two distinct users, each the only one of its name, share a channel, every later createChannel of the
      two names finds it and changes nothing, exactly as long as no second row of either name is added. */
  lemma {:induction false} EstablishedChannelStays(t: Tables, run: seq<Request>, na: string, nb: string,
          a: int, b: int, c: nat)
    requires Inv(t) && a != b && Shared(t.members, c, a, b)
    requires Named(t.users, na) == [a] && Named(t.users, nb) == [b]
    ensures AlwaysFinds(Serve(t, run), na, nb, c) <==> NoRowAdded(t, run, na) && NoRowAdded(t, run, nb)
  {
    var t' := Serve(t, run);
    ServeInv(t, run);
    ServeGrows(t, run);
    ServeNamed(t, run, na);
    ServeNamed(t, run, nb);
    assert Shared(t'.members, c, a, b);
    var idsA, idsB := Named(t'.users, na), Named(t'.users, nb);
    assert idsA[0] == a && idsB[0] == b && na != nb;
    if b in idsA {
      OneNameEach(t', na, nb, b);
    }
    if a in idsB {
      OneNameEach(t', na, nb, a);
    }
    if idsA == [a] && idsB == [b] {
      OneRowFinds(t', na, nb, a, b, c);
    } else if idsA != [a] {
      TwoRowsMiss(t', na, nb, a, b, c);
    } else {
      TwoRowsMiss(t', nb, na, b, a, c);
    }
  }

  // ---------------------------------------------------------------------------------------------
  // Opening a channel
  // ---------------------------------------------------------------------------------------------

  /** createChannel between two distinct existing users that goes through gives them their shared channel. */
  lemma {:induction false} OpenedIsShared(server: Server, t: Tables, sender: Lookup, receiver: Lookup,
          inserts: nat, now: nat)
    requires Inv(t)
    requires HandleCreateChannel(server, t, sender, receiver, inserts, now).reply.Opened?
    ensures var o := HandleCreateChannel(server, t, sender, receiver, inserts, now);
            && Shared(o.tables.members, o.reply.channel, FindUser(t.users, sender), FindUser(t.users, receiver))
            && o.reply.channel !in t.channels
            && o.tables.users == t.users
  {
    assert t.nextChannel !in t.channels;
  }

  /** createChannel opens a channel exactly when the two users exist and have none, and no insert fails; then
      the first message is stored before the receiver is told. */
  lemma {:induction false} OpensExactly(server: Server, t: Tables, sender: Lookup, receiver: Lookup,
          inserts: nat, now: nat)
    requires Inv(t)
    ensures var o := HandleCreateChannel(server, t, sender, receiver, inserts, now);
            var a, b := FindUser(t.users, sender), FindUser(t.users, receiver);
            && (o.reply.Opened? <==> a != 0 && b != 0 && Common(t, a, b) == [] && inserts >= 4)
            && (o.reply.Opened? ==>
                  o.effects == [Persisted(Message(t.nextMessage, a, o.reply.channel, CreatedText(receiver.name), now)),
                                Emit(b, sender.name + ":" + CreatedText(receiver.name))])
  {
    assert forall u <- t.users :: u.id != 0;
    FindUserMeaning(t.users, sender);
    FindUserMeaning(t.users, receiver);
  }

  /** The rows and the announcement that a createChannel of two users without a channel leaves, wherever it stops:
      channel, first message and the two memberships are inserted in this order, each exactly when that many
      inserts go through and the users it refers to exist. C++ announces when all are there, Go when the message
      is. */
  lemma {:induction false} StepByStep(server: Server, t: Tables, sender: Lookup, receiver: Lookup, inserts: nat,
          now: nat)
    requires Inv(t) && Common(t, FindUser(t.users, sender), FindUser(t.users, receiver)) == []
    ensures var o := HandleCreateChannel(server, t, sender, receiver, inserts, now);
            var a, b := FindUser(t.users, sender), FindUser(t.users, receiver);
            var c, text := t.nextChannel, "channel created b/w you and " + receiver.name;
            var m := Message(t.nextMessage, a, c, text, now);
            var stored, complete := inserts >= 2 && a != 0, inserts >= 4 && a != 0 && b != 0;
            && o.tables.users == t.users
            && o.tables.channels == t.channels + (if inserts >= 1 then [c] else [])
            && o.tables.messages == t.messages + (if stored then [m] else [])
            && o.tables.members == t.members + (if inserts >= 3 && a != 0 then [Member(c, a)] else [])
                                             + (if complete then [Member(c, b)] else [])
            && o.effects == (if stored then [Persisted(m)] else [])
                          + (if complete || (server.Go? && stored) then [Emit(b, sender.name + ":" + text)] else [])
            && o.reply == if complete then Opened(c) else Failed
  {
    FindUserMeaning(t.users, sender);
    FindUserMeaning(t.users, receiver);
    var a, b := FindUser(t.users, sender), FindUser(t.users, receiver);
    assert (UserExists(t, a) <==> a != 0) && (UserExists(t, b) <==> b != 0);
  }

  /** A createChannel that fails half-way puts no two users together. */
  lemma {:induction false} FailedSharesNothing(server: Server, t: Tables, sender: Lookup, receiver: Lookup,
          inserts: nat, now: nat, c: nat, a: int, b: int)
    requires Inv(t) && a != b
    requires HandleCreateChannel(server, t, sender, receiver, inserts, now).reply.Failed?
    requires Shared(HandleCreateChannel(server, t, sender, receiver, inserts, now).tables.members, c, a, b)
    ensures Shared(t.members, c, a, b)
  {
    assert t.nextChannel !in t.channels;
  }

  /** C++ announces only channels it opened; Go also announces one whose memberships were not inserted, exactly
      when the message insert was the last to go through or only one membership followed. */
  lemma {:induction false} AnnouncedWithoutChannelExactly(server: Server, t: Tables, sender: Lookup, receiver: Lookup,
          inserts: nat, now: nat)
    requires Inv(t)
    ensures var o := HandleCreateChannel(server, t, sender, receiver, inserts, now);
            var a, b := FindUser(t.users, sender), FindUser(t.users, receiver);
            (!o.reply.Opened? && exists e <- o.effects :: e.Emit?)
            <==> server.Go? && a != 0 && Common(t, a, b) == [] && inserts >= 2 && (inserts < 4 || b == 0)
  {
    assert forall u <- t.users :: u.id != 0;
    FindUserMeaning(t.users, sender);
    FindUserMeaning(t.users, receiver);
    var o := HandleCreateChannel(server, t, sender, receiver, inserts, now);
    assert |o.effects| > 1 ==> o.effects[1] in o.effects && o.effects[1].Emit?;
  }

  /** createUser gives a name the same id on every later call, whichever row comes first, exactly when the name
      is not empty, had at most one row, and no second row of it is added. */
  lemma {:induction false} CreateUserTwice(t: Tables, run: seq<Request>, user: Lookup, first: nat, second: nat)
    requires Inv(t) && first > 0 && second > 0
    ensures var o := HandleCreateUser(t, user, first);
            (forall i :: HandleCreateUser(Serve(o.tables, run), Lookup(user.name, i), second).reply == o.reply)
            <==> user.name != "" && |Named(t.users, user.name)| <= 1 && NoRowAdded(o.tables, run, user.name)
  {
    var name, o := user.name, HandleCreateUser(t, user, first);
    var t1, t2 := o.tables, Serve(o.tables, run);
    assert o == Handle(t, CreateUser(user, first));
    HandleInv(t, CreateUser(user, first));
    ServeInv(t1, run);
    ServeGrows(t1, run);
    CreatedIsNamed(t, user, first);
    ServeNamed(t1, run, name);
    if name == "" {
      assert HandleCreateUser(t2, Lookup(name, 0), second).reply == UserCreated(t2.nextUser);
    } else {
      SameReplyExactly(t2, name, o.reply.id, second);
    }
  }

  /** createUser answers with a row of the name if the name is not empty and has one; otherwise it inserts a row
      under a new id, and fails exactly when the insert does. */
  lemma {:induction false} CreateUserExactly(t: Tables, user: Lookup, inserts: nat)
    requires Inv(t)
    ensures var o := HandleCreateUser(t, user, inserts);
            var known := user.name != "" && exists u <- t.users :: u.name == user.name;
            && (o.reply.Failed? <==> !known && inserts == 0)
            && (!o.reply.Failed? ==> o.reply.UserCreated? && User(o.reply.id, user.name) in o.tables.users)
            && (known || inserts == 0 ==> o.tables == t)
            && (!known && inserts > 0 ==>
                  && !UserExists(t, o.reply.id)
                  && o.tables == t.(users := t.users + [User(o.reply.id, user.name)], nextUser := o.tables.nextUser))
            && o.effects == []
  {
    FindUserMeaning(t.users, user);
    assert !UserExists(t, t.nextUser);
    assert User(t.nextUser, user.name) in t.users + [User(t.nextUser, user.name)];
  }

  /** After a heartbeat its id has a row, with the name it had before or else the name of the heartbeat; no other
      row changes, and the same heartbeat again changes none. Only the id 0 gets a new row every time. */
  lemma {:induction false} HeartbeatExactly(t: Tables, uid: int, name: string)
    requires Inv(t)
    ensures var t' := HandleHeartbeat(t, uid, name).tables;
            if uid == 0 then
              && t' == t.(users := t.users + [User(t.nextUser, name)], nextUser := t'.nextUser)
              && !UserExists(t, t.nextUser)
            else
              && (if exists u <- t.users :: u.id == uid then t' == t
                  else t' == t.(users := t.users + [User(uid, name)], nextUser := t'.nextUser) && t'.nextUser > uid)
              && HandleHeartbeat(t', uid, name).tables == t'
  {
    var t' := HandleHeartbeat(t, uid, name).tables;
    assert uid != 0 && !UserExists(t, uid) ==> t'.users[|t.users|] in t'.users;
  }

  lemma {:induction false} CreatedIsNamed(t: Tables, user: Lookup, inserts: nat)
    requires Inv(t) && inserts > 0
    ensures var o := HandleCreateUser(t, user, inserts);
            var ids, ids' := Named(t.users, user.name), Named(o.tables.users, user.name);
            && o.reply.UserCreated? && o.reply.id in ids'
            && ids' == (if ids == [] || user.name == "" then ids + [o.reply.id] else ids)
            && (user.name == "" ==> o.reply.id < o.tables.nextUser)
  {
    NamedSnoc(t.users, User(t.nextUser, user.name), user.name);
    if Named(t.users, user.name) != [] {
      assert FindUser(t.users, user) in Named(t.users, user.name);
      NamedMeaning(t.users, user.name, FindUser(t.users, user));
    }
  }

  // createUser answers with one of the rows of the name, so always with this one if there is no other.
  lemma {:induction false} SameReplyExactly(t: Tables, name: string, id: int, inserts: nat)
    requires Inv(t) && name != "" && inserts > 0 && id in Named(t.users, name)
    ensures (forall i :: HandleCreateUser(t, Lookup(name, i), inserts).reply == UserCreated(id))
        <==> |Named(t.users, name)| == 1
  {
    var ids := Named(t.users, name);
    NamedDistinct(t.users, name);
    forall i: nat ensures HandleCreateUser(t, Lookup(name, i), inserts).reply
                       == UserCreated(if i < |ids| then ids[i] else ids[0]) {
      CreatedIsNamed(t, Lookup(name, i), inserts);
    }
    if |ids| > 1 {
      var i := if ids[0] == id then 1 else 0;
      assert HandleCreateUser(t, Lookup(name, i), inserts).reply == UserCreated(ids[i]) != UserCreated(id);
    }
  }

  // ---------------------------------------------------------------------------------------------
  // Messages
  // ---------------------------------------------------------------------------------------------

  lemma {:induction false} ExceptMeaning(users: seq<int>, sender: int, u: int)
    ensures u in Except(users, sender) <==> u in users && u != sender
  {
    if users != [] {
      ExceptMeaning(users[..|users| - 1], sender, u);
      assert users == users[..|users| - 1] + [users[|users| - 1]];
    }
  }

  lemma {:induction false} ExceptOfTwo(x: int, y: int, sender: int)
    ensures Except([x, y], sender) == (if x != sender then [x] else []) + (if y != sender then [y] else [])
  {
    assert [x, y][..1] == [x] && [x][..0] == [];
    assert Except([x], sender) == if x != sender then [x] else [];
  }

  /** In the channel of two distinct users a message of one goes to the other and to nobody else. */
  lemma {:induction false} OnlyTheOther(t: Tables, c: nat, a: int, b: int)
    requires Inv(t) && a != b && Shared(t.members, c, a, b)
    ensures Except(UsersOf(t.members, c), a) == [b]
  {
    var users := UsersOf(t.members, c);
    UsersOfMeaning(t.members, c, a);
    UsersOfMeaning(t.members, c, b);
    assert |users| == 2;
    ExceptOfTwo(users[0], users[1], a);
  }

  lemma {:induction false} NameOfMeaning(users: seq<User>, u: User, default: string)
    requires u in users && forall i, j :: 0 <= i < j < |users| ==> users[i].id != users[j].id
    ensures NameOf(users, u.id, default) == u.name
  {
    if users[0] != u {
      var k :| 0 <= k < |users| && users[k] == u;
      assert users[1..][k - 1] == u;
      NameOfMeaning(users[1..], u, default);
    }
  }

  /** What becomes of a message of user a in channel c. It is refused exactly for an empty text to the C++ server;
      it is stored exactly when it is not refused, its user and its channel exist and the insert goes through; it
      is accepted exactly when, besides, the members can be read. In the channel of two distinct users the other
      one, and nobody else, is told the sender's name and the text, after the message is stored, exactly when it
      is accepted. */
  lemma {:induction false} MessageExactly(server: Server, t: Tables, a: int, c: nat, text: string, inserts: nat,
          readOk: bool, now: nat)
    requires Inv(t)
    ensures var o := HandleSendMessage(server, t, a, c, text, inserts, readOk, now);
            var refused := server == Cpp && text == "";
            var stored := !refused && inserts > 0 && c in t.channels && exists u <- t.users :: u.id == a;
            var m := Message(t.nextMessage, a, c, text, now);
            && (o.reply == BadRequest <==> refused)
            && (o.reply == Accepted <==> stored && readOk)
            && (o.reply == Failed <==> !refused && !(stored && readOk))
            && o.tables == (if stored then t.(messages := t.messages + [m], nextMessage := t.nextMessage + 1) else t)
            && forall n, b :: User(a, n) in t.users && a != b && Shared(t.members, c, a, b) ==>
                 o.effects == (if stored then [Persisted(m)] else [])
                            + (if o.reply == Accepted then [Emit(b, n + ":" + text)] else [])
  {
    forall n, b | User(a, n) in t.users && a != b && Shared(t.members, c, a, b)
      ensures NameOf(t.users, a, "unknown") == NameOf(t.users, a, "") == n
      ensures EmitTo(Except(UsersOf(t.members, c), a), n + ":" + text) == [Emit(b, n + ":" + text)]
    {
      OnlyTheOther(t, c, a, b);
      NameOfMeaning(t.users, User(a, n), "unknown");
      NameOfMeaning(t.users, User(a, n), "");
    }
  }

  /** The rows of a channel are the messages sent in it. */
  lemma {:induction false} ChannelRowsMeaning(messages: seq<Message>, c: nat, m: Message)
    ensures m in ChannelRows(messages, c) <==> m in messages && m.channel == c
  {
    if messages != [] {
      ChannelRowsMeaning(messages[..|messages| - 1], c, m);
      assert messages == messages[..|messages| - 1] + [messages[|messages| - 1]];
    }
  }

  lemma {:induction false} ChannelRowsSnoc(messages: seq<Message>, m: Message, c: nat)
    ensures ChannelRows(messages + [m], c) == ChannelRows(messages, c) + if m.channel == c then [m] else []
  {
    assert (messages + [m])[..|messages|] == messages;
  }

  lemma {:induction false} ChannelRowsGrow(messages: seq<Message>, more: seq<Message>, c: nat)
    requires messages <= more
    ensures ChannelRows(messages, c) <= ChannelRows(more, c)
    decreases |more|
  {
    if |messages| < |more| {
      ChannelRowsGrow(messages, more[..|more| - 1], c);
    } else {
      assert messages == more;
    }
  }

  lemma {:induction false} ChannelRowsDistinct(messages: seq<Message>, c: nat)
    requires forall i, j :: 0 <= i < j < |messages| ==> messages[i].id < messages[j].id
    ensures forall m <- ChannelRows(messages, c) :: m in messages
    ensures Distinct(ChannelRows(messages, c))
  {
    if messages != [] {
      var init, last := messages[..|messages| - 1], messages[|messages| - 1];
      ChannelRowsDistinct(init, c);
      assert messages == init + [last];
      var rows := ChannelRows(init, c);
      forall k | 0 <= k < |rows| ensures rows[k] != last {
        assert rows[k] in init;
        var i :| 0 <= i < |init| && init[i] == rows[k];
        assert messages[i] == rows[k];
      }
    }
  }

  /** A message of one of two users, each the only one of its name, is accepted in their channel. From then on
      every createChannel of the two names returns the history of that channel, exactly as long as no second row
      of either name is added; and with strictly increasing timestamps this history is the newest ten rows,
      newest first, with the message among them exactly until ten newer ones have been inserted. */
  lemma {:induction false} AcceptedIsReturned(server: Server, t: Tables, run: seq<Request>, na: string, nb: string,
          a: int, b: int, c: nat, text: string, inserts: nat, now: nat, page: seq<Message>)
    requires Inv(t) && a != b && Shared(t.members, c, a, b)
    requires Named(t.users, na) == [a] && Named(t.users, nb) == [b]
    requires HandleSendMessage(server, t, a, c, text, inserts, true, now).reply.Accepted?
    requires var t1 := HandleSendMessage(server, t, a, c, text, inserts, true, now).tables;
             var rows := ChannelRows(Serve(t1, run).messages, c);
             StrictlyIncreasing(rows) && LegalPage(rows, page)
    ensures var t1 := HandleSendMessage(server, t, a, c, text, inserts, true, now).tables;
            var rows := ChannelRows(Serve(t1, run).messages, c);
            && page == Newest(rows)
            && (Message(t.nextMessage, a, c, text, now) in page <==> |rows| - |ChannelRows(t1.messages, c)| < 10)
            && (AlwaysFinds(Serve(t1, run), na, nb, c) <==> NoRowAdded(t1, run, na) && NoRowAdded(t1, run, nb))
  {
    var r := Request.SendMessage(server, a, c, text, inserts, true, now);
    var t1 := Handle(t, r).tables;
    HandleInv(t, r);
    EstablishedChannelStays(t1, run, na, nb, a, b, c);
    var m := Message(t.nextMessage, a, c, text, now);
    assert t1.messages == t.messages + [m];
    ServeGrows(t1, run);
    StoredUntilTenNewer(t.messages, m, Serve(t1, run).messages, c, page);
  }

  // Of the rows of a channel, one row and whatever came later.
  lemma {:induction false} StoredUntilTenNewer(messages: seq<Message>, m: Message, later: seq<Message>, c: nat,
          page: seq<Message>)
    requires messages + [m] <= later && m.channel == c
    requires StrictlyIncreasing(ChannelRows(later, c)) && LegalPage(ChannelRows(later, c), page)
    ensures var rows := ChannelRows(later, c);
            && page == Newest(rows)
            && (m in page <==> |rows| - |ChannelRows(messages + [m], c)| < LIMIT)
  {
    var rows, i := ChannelRows(later, c), |ChannelRows(messages, c)|;
    ChannelRowsSnoc(messages, m, c);
    ChannelRowsGrow(messages + [m], later, c);
    assert rows[i] == ChannelRows(messages + [m], c)[i] == m;
    OneLegalPage(rows, page);
    ReturnedUntilTenNewer(rows, i, page);
  }

  /** With any timestamps, it is in every possible answer exactly when fewer than ten other messages of the
      channel are at least as new: ties can push it out early. */
  lemma {:induction false} AlwaysInHistoryExactly(run: seq<Request>, c: nat, m: Message)
    requires m in ChannelRows(Serve(EMPTY, run).messages, c)
    ensures var rows := ChannelRows(Serve(EMPTY, run).messages, c);
            (forall page :: LegalPage(rows, page) ==> m in page) <==> Sums.Sum(rows, NotOlder(m)) < 10
  {
    EmptyInv();
    ServeInv(EMPTY, run);
    ChannelRowsDistinct(Serve(EMPTY, run).messages, c);
    AlwaysReturnedExactly(ChannelRows(Serve(EMPTY, run).messages, c), m);
  }
}
